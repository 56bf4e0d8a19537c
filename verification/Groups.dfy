/** Group hierarchy in two stores: a parent column in the repository and parent tuples in the
    policy store. A failing second write is compensated by undoing the first, and the
    compensation is itself a write that may fail. */
module Groups {

  /** The tuple `parent` is the parent group of `child`. */
  datatype Tuple = Tuple(parent: string, child: string)

  /** The repository holds `parents`, from group ID to parent column, empty for none, and the IDs
      whose status is `enabled`. The policy store holds the parent tuples and, for every group in
      `registered`, its domain tuple. */
  datatype State = State(parents: map<string, string>, enabled: set<string>,
                         registered: set<string>, tuples: set<Tuple>)

  /** What the parent column says as a tuple. */
  predicate InColumn(parents: map<string, string>, t: Tuple) {
    t.child in parents && parents[t.child] == t.parent && t.parent != ""
  }

  /** The two stores say the same. */
  ghost predicate Consistent(s: State) {
    forall t :: t in s.tuples <==> InColumn(s.parents, t)
  }

  /** The repository's foreign key, and no group is its own parent; a tuple joins two groups the
      policy store knows. */
  ghost predicate WellFormed(s: State) {
    && "" !in s.parents && "" !in s.registered && s.enabled <= s.parents.Keys
    && (forall g | g in s.parents :: s.parents[g] == "" || (s.parents[g] in s.parents && s.parents[g] != g))
    && (forall t | t in s.tuples :: t.parent in s.registered && t.child in s.registered)
  }

  ghost predicate Inv(s: State) {
    Consistent(s) && WellFormed(s)
  }

  // ----- the calls, as atomic steps on both stores

  /** A flag names a store call that fails; the first flag covers every earlier error return.
      `rollbackFails` is the compensating write; a create has two, in the order of the flags. */
  datatype Op =
    | Create(id: string, parent: string, active: bool, saveFails: bool, policiesFail: bool, rolesFail: bool,
             unpolicyFails: bool, unsaveFails: bool)
    | SetStatus(id: string, active: bool, fails: bool)
    | AddParent(id: string, parent: string, addFails: bool, assignFails: bool, rollbackFails: bool)
    | RemoveParent(id: string, deleteFails: bool, unassignFails: bool, rollbackFails: bool)
    | AddChildren(parent: string, ids: seq<string>, addFails: bool, assignFails: bool, rollbackFails: bool)
    | RemoveChildren(parent: string, ids: seq<string>, deleteFails: bool, unassignFails: bool, rollbackFails: bool)
    | RemoveAllChildren(parent: string, deleteFails: bool, unassignFails: bool)
    | Delete(id: string, done: nat)

  /** The groups of a list that the calls on children look at: the enabled ones. */
  function Found(s: State, ids: seq<string>): set<string> {
    set g | g in ids && g in s.parents && g in s.enabled
  }

  /** The groups of the list that they do not see, although the repository updates them too. */
  function Unseen(s: State, ids: seq<string>): set<string> {
    set g | g in ids && g in s.parents && g !in s.enabled
  }

  function TuplesOf(parent: string, children: set<string>): set<Tuple> {
    set g | g in children :: Tuple(parent, g)
  }

  /** The preconditions of the policy store: it knows both groups, and the child has no parent. */
  predicate Addable(s: State, added: set<Tuple>) {
    forall t | t in added ::
      t.parent in s.registered && t.child in s.registered && forall u | u in s.tuples :: u.child != t.child
  }

  predicate CanAssign(parents: map<string, string>, parent: string, ids: seq<string>) {
    ids == [] || (parent in parents && parent !in ids)
  }

  function Assigned(parents: map<string, string>, parent: string, ids: seq<string>): map<string, string> {
    map g | g in parents :: if g in ids then parent else parents[g]
  }

  function Unassigned(parents: map<string, string>, parent: string, ids: seq<string>): map<string, string> {
    map g | g in parents :: if g in ids && parents[g] == parent then "" else parents[g]
  }

  function Cleared(parents: map<string, string>, parent: string): map<string, string> {
    map g | g in parents :: if parents[g] == parent then "" else parents[g]
  }

  predicate HasChild(parents: map<string, string>, parent: string) {
    parent != "" && exists g | g in parents :: parents[g] == parent
  }

  /** Whether `AddChildrenGroups` reaches its writes. */
  predicate ChildrenFree(s: State, ids: seq<string>) {
    Found(s, ids) != {} && forall g | g in Found(s, ids) :: s.parents[g] == ""
  }

  /** Whether `RemoveChildrenGroups` reaches its writes: no group it sees has another parent. */
  predicate ChildrenRemovable(s: State, parent: string, ids: seq<string>) {
    Found(s, ids) != {} && forall g | g in Found(s, ids) :: s.parents[g] == "" || s.parents[g] == parent
  }

  /** The row can be saved. */
  predicate Savable(s: State, op: Op)
    requires op.Create?
  {
    !op.saveFails && op.id != "" && op.id !in s.parents && (op.parent == "" || op.parent in s.parents)
  }

  /** The policies of a new group are accepted: it is unknown so far and its parent is known. */
  predicate Registrable(s: State, op: Op)
    requires op.Create?
  {
    !op.policiesFail && op.id !in s.registered && (op.parent == "" || op.parent in s.registered)
  }

  function ApplyCreate(s: State, op: Op): State
    requires op.Create?
  {
    var enabled := if op.active then s.enabled + {op.id} else s.enabled;
    var saved := s.(parents := s.parents[op.id := op.parent], enabled := enabled);
    var tuples := if op.parent == "" then s.tuples else s.tuples + {Tuple(op.parent, op.id)};
    if !Savable(s, op) then s
    else if !Registrable(s, op) then (if op.unsaveFails then saved else s)
    else if op.rolesFail then
      var row := if op.unsaveFails then saved else s;
      if op.unpolicyFails then row.(registered := s.registered + {op.id}, tuples := tuples) else row
    else saved.(registered := s.registered + {op.id}, tuples := tuples)
  }

  /** Deleting a group writes five times: the status, its own policies if it has a parent, the
      tuples of its children, all its policies, and the row, whose children lose their parent. */
  function ApplyDelete(s: State, id: string, done: nat): State
    requires id in s.parents
  {
    var own := Tuple(s.parents[id], id);
    var s1 := s.(enabled := s.enabled - {id});
    var s2 := if s.parents[id] == "" then s1 else s1.(registered := s.registered - {id}, tuples := s.tuples - {own});
    var s3 := s2.(tuples := set t | t in s2.tuples && t.parent != id);
    var s4 := s3.(registered := s.registered - {id}, tuples := set t | t in s3.tuples && t.child != id);
    var s5 := s4.(parents := Cleared(s.parents, id) - {id});
    if done == 0 then s else if done == 1 then s1 else if done == 2 then s2
    else if done == 3 then s3 else if done == 4 then s4 else s5
  }

  /** What a failed removal leaves: the tuples are deleted and the rollback tries to add them. */
  function Restored(s: State, gone: set<Tuple>, rollbackFails: bool): State {
    var s1 := s.(tuples := s.tuples - gone);
    if rollbackFails || !Addable(s1, gone) then s1 else s1.(tuples := s1.tuples + gone)
  }

  function Apply(s: State, op: Op): State {
    match op
    case Create(_, _, _, _, _, _, _, _) => ApplyCreate(s, op)
    case SetStatus(id, active, fails) =>
      if fails || id !in s.parents then s
      else s.(enabled := if active then s.enabled + {id} else s.enabled - {id})
    case AddParent(id, parent, addFails, assignFails, rollbackFails) =>
      var added := {Tuple(parent, id)};
      if id !in s.parents || s.parents[id] != "" || addFails || !Addable(s, added) then s
      else if assignFails || !CanAssign(s.parents, parent, [id]) then
        (if rollbackFails then s.(tuples := s.tuples + added) else s)
      else s.(parents := s.parents[id := parent], tuples := s.tuples + added)
    case RemoveParent(id, deleteFails, unassignFails, rollbackFails) =>
      if id !in s.parents || s.parents[id] == "" || deleteFails then s
      else
        var gone := {Tuple(s.parents[id], id)};
        if unassignFails || s.parents[id] !in s.parents then Restored(s, gone, rollbackFails)
        else s.(parents := s.parents[id := ""], tuples := s.tuples - gone)
    case AddChildren(parent, ids, addFails, assignFails, rollbackFails) =>
      var added := TuplesOf(parent, Found(s, ids));
      if !ChildrenFree(s, ids) || addFails || !Addable(s, added) then s
      else if assignFails || !CanAssign(s.parents, parent, ids) then
        (if rollbackFails then s.(tuples := s.tuples + added) else s)
      else s.(parents := Assigned(s.parents, parent, ids), tuples := s.tuples + added)
    case RemoveChildren(parent, ids, deleteFails, unassignFails, rollbackFails) =>
      var gone := TuplesOf(parent, Found(s, ids));
      if !ChildrenRemovable(s, parent, ids) || deleteFails then s
      else if unassignFails || parent !in s.parents then Restored(s, gone, rollbackFails)
      else s.(parents := Unassigned(s.parents, parent, ids), tuples := s.tuples - gone)
    case RemoveAllChildren(parent, deleteFails, unassignFails) =>
      if deleteFails then s
      else
        // an empty ID puts no subject into the filter, which then matches every parent tuple
        var tuples := set t | t in s.tuples && parent != "" && t.parent != parent;
        s.(parents := if unassignFails || parent == "" then s.parents else Cleared(s.parents, parent), tuples := tuples)
    case Delete(id, done) => if id in s.parents then ApplyDelete(s, id, done) else s
  }

  // ----- which steps keep the stores equal

  /** A create whose rollback is half done matters only if there is a parent. */
  ghost predicate SafeCreate(s: State, op: Op)
    requires op.Create?
  {
    op.parent != "" && Savable(s, op) ==>
      if Registrable(s, op) then op.rolesFail ==> op.unpolicyFails == op.unsaveFails else !op.unsaveFails
  }

  /** The repository gives the parent to the listed groups the call did not see as well; it must
      be theirs already. A failed second write must be rolled back. */
  ghost predicate SafeAddChildren(s: State, op: Op)
    requires op.AddChildren?
  {
    ChildrenFree(s, op.ids) && !op.addFails && Addable(s, TuplesOf(op.parent, Found(s, op.ids))) ==>
      if !op.assignFails && CanAssign(s.parents, op.parent, op.ids)
      then forall g | g in Unseen(s, op.ids) :: s.parents[g] == op.parent
      else !op.rollbackFails
  }

  /** The repository takes the parent from the listed groups the call did not see as well; none may
      have it. The rollback of a removal writes a tuple for every group the call saw; it is refused
      if the policy store does not know one of them. */
  ghost predicate SafeRemoveChildren(s: State, op: Op)
    requires op.RemoveChildren?
  {
    var found := Found(s, op.ids);
    ChildrenRemovable(s, op.parent, op.ids) && !op.deleteFails ==>
      if !op.unassignFails && op.parent in s.parents
      then forall g | g in Unseen(s, op.ids) :: s.parents[g] != op.parent
      else if !op.rollbackFails && op.parent in s.registered && found <= s.registered
      then forall g | g in found :: s.parents[g] == op.parent
      else forall g | g in found :: s.parents[g] == ""
  }

  /** The condition under which a call keeps the stores equal, in terms of the state before it
      and of the store calls that fail in it. */
  ghost predicate Safe(s: State, op: Op) {
    match op
    case Create(_, _, _, _, _, _, _, _) => SafeCreate(s, op)
    case SetStatus(_, _, _) => true
    case AddParent(id, parent, addFails, assignFails, rollbackFails) =>
      rollbackFails && id in s.parents && s.parents[id] == "" && !addFails && Addable(s, {Tuple(parent, id)}) ==>
        !assignFails && CanAssign(s.parents, parent, [id])
    case RemoveParent(id, deleteFails, unassignFails, rollbackFails) =>
      rollbackFails && id in s.parents && s.parents[id] != "" && !deleteFails ==> !unassignFails
    case AddChildren(_, _, _, _, _) => SafeAddChildren(s, op)
    case RemoveChildren(_, _, _, _, _) => SafeRemoveChildren(s, op)
    case RemoveAllChildren(parent, deleteFails, unassignFails) =>
      !deleteFails ==>
        if parent == "" then forall g | g in s.parents :: s.parents[g] == ""
        else unassignFails ==> !HasChild(s.parents, parent)
    case Delete(id, done) =>
      2 <= done <= 4 && id in s.parents ==> s.parents[id] == "" && (done > 2 ==> !HasChild(s.parents, id))
  }

  lemma CreateKeepsWellFormed(s: State, op: Op)
    requires WellFormed(s) && op.Create?
    ensures WellFormed(Apply(s, op))
  {}

  lemma ParentKeepsWellFormed(s: State, op: Op)
    requires WellFormed(s) && (op.AddParent? || op.RemoveParent?)
    ensures WellFormed(Apply(s, op))
  {}

  lemma ChildrenKeepWellFormed(s: State, op: Op)
    requires WellFormed(s) && (op.AddChildren? || op.RemoveChildren?)
    ensures WellFormed(Apply(s, op))
  {}

  lemma DeleteKeepsWellFormed(s: State, op: Op)
    requires WellFormed(s) && op.Delete?
    requires op.id in s.parents && 2 <= op.done <= 3 ==> s.parents[op.id] == ""
    ensures WellFormed(Apply(s, op))
  {}

  /** Every call keeps this, whatever fails in it and however its rollback ends; only a deletion
      of a group with a parent, cut off after its own policies, may leave tuples of its children. */
  lemma {:induction false} StepKeepsWellFormed(s: State, op: Op)
    requires WellFormed(s)
    requires op.Delete? && op.id in s.parents && 2 <= op.done <= 3 ==> s.parents[op.id] == ""
    ensures WellFormed(Apply(s, op))
  {
    if op.Create? {
      CreateKeepsWellFormed(s, op);
    } else if op.Delete? {
      DeleteKeepsWellFormed(s, op);
    } else if op.AddParent? || op.RemoveParent? {
      ParentKeepsWellFormed(s, op);
    } else if op.AddChildren? || op.RemoveChildren? {
      ChildrenKeepWellFormed(s, op);
    }
  }

  /** The stores disagree about one tuple. */
  ghost predicate Differs(s: State, t: Tuple) {
    (t in s.tuples) != InColumn(s.parents, t)
  }

  /** A call on one group can make the stores differ in one tuple only. */
  lemma {:induction false} OnlyTupleDecides(s: State, s': State, t: Tuple)
    requires Consistent(s)
    requires forall u: Tuple | u != t :: Differs(s', u) ==> Differs(s, u)
    ensures Consistent(s') <==> !Differs(s', t)
  {
    forall u: Tuple | u != t ensures !Differs(s', u) {
      assert u in s.tuples <==> InColumn(s.parents, u);
    }
    if !Differs(s', t) {
      forall u: Tuple ensures u in s'.tuples <==> InColumn(s'.parents, u) {
        assert !Differs(s', u);
      }
    }
  }

  lemma {:induction false} CreateExact(s: State, op: Op)
    requires Inv(s) && op.Create?
    ensures Consistent(Apply(s, op)) <==> Safe(s, op)
  {
    var s', t := Apply(s, op), Tuple(op.parent, op.id);
    assert op.id !in s.parents ==> forall u: Tuple | u.child == op.id :: u in s.tuples <==> InColumn(s.parents, u);
    OnlyTupleDecides(s, s', t);
    assert t in s.tuples <==> InColumn(s.parents, t);
  }

  lemma ParentExact(s: State, op: Op)
    requires Inv(s) && (op.AddParent? || op.RemoveParent?)
    ensures Consistent(Apply(s, op)) <==> Safe(s, op)
  {}

  lemma {:induction false} AddChildrenExact(s: State, op: Op)
    requires Inv(s) && op.AddChildren?
    ensures Consistent(Apply(s, op)) <==> Safe(s, op)
  {
    var s' := Apply(s, op);
    if Safe(s, op) {
      forall t ensures t in s'.tuples <==> InColumn(s'.parents, t) {
        assert t in s.tuples <==> InColumn(s.parents, t);
      }
    } else if !op.assignFails && CanAssign(s.parents, op.parent, op.ids) {
      var g :| g in Unseen(s, op.ids) && s.parents[g] != op.parent;
      assert Tuple(op.parent, g) in s.tuples <==> InColumn(s.parents, Tuple(op.parent, g));
      assert Differs(s', Tuple(op.parent, g));
    } else {
      var g :| g in Found(s, op.ids);
      assert Differs(s', Tuple(op.parent, g));
    }
  }

  /** The rollback goes through exactly if the policy store knows the groups. */
  lemma {:induction false} RestoreGoesThrough(s: State, op: Op)
    requires Inv(s) && op.RemoveChildren? && ChildrenRemovable(s, op.parent, op.ids)
    ensures var gone := TuplesOf(op.parent, Found(s, op.ids));
      Addable(s.(tuples := s.tuples - gone), gone) <==>
        op.parent in s.registered && Found(s, op.ids) <= s.registered
  {
    var found := Found(s, op.ids);
    var gone := TuplesOf(op.parent, found);
    assert forall g | g in found :: Tuple(op.parent, g) in gone;
    forall u, g | u in s.tuples - gone && g in found ensures u.child != g {
      assert u in s.tuples <==> InColumn(s.parents, u);
    }
  }

  lemma {:induction false} RemoveChildrenExact(s: State, op: Op)
    requires Inv(s) && op.RemoveChildren?
    ensures Consistent(Apply(s, op)) <==> Safe(s, op)
  {
    var s', found := Apply(s, op), Found(s, op.ids);
    if ChildrenRemovable(s, op.parent, op.ids) {
      RestoreGoesThrough(s, op);
    }
    if Safe(s, op) {
      forall t ensures t in s'.tuples <==> InColumn(s'.parents, t) {
        assert t in s.tuples <==> InColumn(s.parents, t);
      }
    } else if !op.unassignFails && op.parent in s.parents {
      var g :| g in Unseen(s, op.ids) && s.parents[g] == op.parent;
      assert Differs(s', Tuple(op.parent, g));
    } else if g :| g in found && s.parents[g] != op.parent && Tuple(op.parent, g) in s'.tuples {
      assert Differs(s', Tuple(op.parent, g));
    } else {
      var g :| g in found && s.parents[g] != "";
      assert Differs(s', Tuple(op.parent, g));
    }
  }

  lemma {:induction false} DeleteExact(s: State, op: Op)
    requires Inv(s) && op.Delete?
    ensures Consistent(Apply(s, op)) <==> Safe(s, op)
  {
    var s' := Apply(s, op);
    if Safe(s, op) {
      forall t ensures t in s'.tuples <==> InColumn(s'.parents, t) {
        assert t in s.tuples <==> InColumn(s.parents, t);
      }
    } else if s.parents[op.id] != "" {
      assert Differs(s', Tuple(s.parents[op.id], op.id));
    } else {
      var g :| g in s.parents && s.parents[g] == op.id;
      assert Differs(s', Tuple(op.id, g));
    }
  }

  lemma {:induction false} RemoveAllChildrenExact(s: State, op: Op)
    requires Inv(s) && op.RemoveAllChildren?
    ensures Consistent(Apply(s, op)) <==> Safe(s, op)
  {
    var s' := Apply(s, op);
    if Safe(s, op) {
      forall t ensures t in s'.tuples <==> InColumn(s'.parents, t) {
        assert t in s.tuples <==> InColumn(s.parents, t);
      }
    } else {
      var g :| g in s.parents && s.parents[g] != "" && (op.parent == "" || s.parents[g] == op.parent);
      assert Differs(s', Tuple(s.parents[g], g));
    }
  }

  /** From a consistent state, a call with any pattern of failing writes and failing rollbacks
      keeps the parent tuples equal to the parent column if and only if it is safe. */
  lemma {:induction false} StepExact(s: State, op: Op)
    requires Inv(s)
    ensures Consistent(Apply(s, op)) <==> Safe(s, op)
  {
    match op
    case Create(_, _, _, _, _, _, _, _) => CreateExact(s, op);
    case SetStatus(_, _, _) =>
    case AddParent(_, _, _, _, _) => ParentExact(s, op);
    case RemoveParent(_, _, _, _) => ParentExact(s, op);
    case AddChildren(_, _, _, _, _) => AddChildrenExact(s, op);
    case RemoveChildren(_, _, _, _, _) => RemoveChildrenExact(s, op);
    case RemoveAllChildren(_, _, _) => RemoveAllChildrenExact(s, op);
    case Delete(_, _) => DeleteExact(s, op);
  }

  // ----- runs

  function Run(s: State, ops: seq<Op>): State
    decreases ops
  {
    if ops == [] then s else Run(Apply(s, ops[0]), ops[1..])
  }

  ghost predicate SafeRun(s: State, ops: seq<Op>)
    decreases ops
  {
    ops != [] ==> Safe(s, ops[0]) && SafeRun(Apply(s, ops[0]), ops[1..])
  }

  const EMPTY := State(map[], {}, {}, {})

  lemma {:induction false} RunKeepsInv(s: State, ops: seq<Op>)
    requires Inv(s) && SafeRun(s, ops)
    ensures Inv(Run(s, ops))
    decreases ops
  {
    if ops != [] {
      StepExact(s, ops[0]);
      StepKeepsWellFormed(s, ops[0]);
      RunKeepsInv(Apply(s, ops[0]), ops[1..]);
    }
  }

  /** Over every safe run, whatever store calls fail in it, the tuples equal the column after
      every call; so a group has a parent tuple exactly for its parent, and never two. */
  lemma {:induction false} StoresAgree(ops: seq<Op>, parent: string, child: string)
    requires SafeRun(EMPTY, ops)
    ensures var s := Run(EMPTY, ops);
      Tuple(parent, child) in s.tuples <==> child in s.parents && s.parents[child] == parent && parent != ""
  {
    RunKeepsInv(EMPTY, ops);
  }

  /** No compensating write fails, lists of children name enabled groups only, children are removed
      from their own parent, and a call without a rollback does not fail halfway. */
  ghost predicate Compensated(s: State, op: Op) {
    match op
    case Create(_, _, _, _, _, _, unpolicyFails, unsaveFails) => !unpolicyFails && !unsaveFails
    case SetStatus(_, _, _) => true
    case AddChildren(parent, ids, _, _, rollbackFails) => !rollbackFails && Unseen(s, ids) == {}
    case RemoveChildren(parent, ids, _, _, rollbackFails) =>
      && !rollbackFails && Unseen(s, ids) == {}
      && parent != "" && forall g | g in Found(s, ids) :: s.parents[g] == parent
    case RemoveAllChildren(parent, deleteFails, unassignFails) => deleteFails || (!unassignFails && parent != "")
    case Delete(_, done) => done < 2 || done > 4
    case _ => !op.rollbackFails
  }

  ghost predicate CompensatedRun(s: State, ops: seq<Op>)
    decreases ops
  {
    ops != [] ==> Compensated(s, ops[0]) && CompensatedRun(Apply(s, ops[0]), ops[1..])
  }

  lemma {:induction false} CompensatedIsSafe(s: State, op: Op)
    requires Inv(s) && Compensated(s, op)
    ensures Safe(s, op)
  {
    if op.RemoveChildren? {
      forall g | g in Found(s, op.ids) ensures op.parent in s.registered && g in s.registered {
        assert Tuple(op.parent, g) in s.tuples <==> InColumn(s.parents, Tuple(op.parent, g));
      }
    }
  }

  /** Every run in which compensating writes succeed keeps the stores equal, whatever else fails. */
  lemma {:induction false} CompensatedRunsAgree(s: State, ops: seq<Op>)
    requires Inv(s) && CompensatedRun(s, ops)
    ensures SafeRun(s, ops) && Inv(Run(s, ops))
    decreases ops
  {
    if ops != [] {
      CompensatedIsSafe(s, ops[0]);
      StepExact(s, ops[0]);
      StepKeepsWellFormed(s, ops[0]);
      CompensatedRunsAgree(Apply(s, ops[0]), ops[1..]);
    }
  }

  // ----- what a call without failures does

  /** The column entries of all groups but these are as before, and no group came or went. */
  ghost predicate OtherColumns(s: State, s': State, groups: set<string>) {
    s'.parents.Keys == s.parents.Keys && forall g | g in s.parents && g !in groups :: s'.parents[g] == s.parents[g]
  }

  /** The tuples of all children but these are as before. */
  ghost predicate OtherTuples(s: State, s': State, groups: set<string>) {
    forall t: Tuple | t.child !in groups :: t in s'.tuples <==> t in s.tuples
  }

  /** A new group has the given parent and status, is known to the policy store, and has a tuple
      exactly for its parent; all other groups stay as they are. */
  lemma {:induction false} CreateEffect(s: State, id: string, parent: string, active: bool)
    requires WellFormed(s) && id != "" && id !in s.parents && id !in s.registered
    requires parent == "" || (parent in s.parents && parent in s.registered)
    ensures var s' := Apply(s, Create(id, parent, active, false, false, false, false, false));
      && s'.parents == s.parents[id := parent] && s'.registered == s.registered + {id}
      && (id in s'.enabled <==> active) && (forall g | g != id :: g in s'.enabled <==> g in s.enabled)
      && OtherTuples(s, s', {id}) && forall t: Tuple | t.child == id :: t in s'.tuples <==> t.parent == parent != ""
  {
  }

  lemma {:induction false} SetStatusEffect(s: State, id: string, active: bool)
    requires id in s.parents
    ensures var s' := Apply(s, SetStatus(id, active, false));
      && (id in s'.enabled <==> active) && (forall g | g != id :: g in s'.enabled <==> g in s.enabled)
      && s'.parents == s.parents && s'.registered == s.registered && s'.tuples == s.tuples
  {
  }

  /** Adding a parent to a known group without one sets column and tuple, of that group only. */
  lemma {:induction false} AddParentEffect(s: State, id: string, parent: string)
    requires Inv(s) && id in s.parents && s.parents[id] == "" && parent in s.parents && parent != id
    requires id in s.registered && parent in s.registered
    ensures var s' := Apply(s, AddParent(id, parent, false, false, false));
      && s'.parents[id] == parent && OtherColumns(s, s', {id}) && s'.enabled == s.enabled &&
        s'.registered == s.registered
      && OtherTuples(s, s', {id}) && forall t: Tuple | t.child == id :: t in s'.tuples <==> t.parent == parent
  {
    forall u | u in s.tuples ensures u.child != id {
      assert u in s.tuples <==> InColumn(s.parents, u);
    }
  }

  /** Removing the parent of a group clears column and tuple, of that group only. */
  lemma {:induction false} RemoveParentEffect(s: State, id: string)
    requires Inv(s) && id in s.parents
    ensures var s' := Apply(s, RemoveParent(id, false, false, false));
      && s'.parents[id] == "" && OtherColumns(s, s', {id}) && s'.enabled == s.enabled && s'.registered == s.registered
      && OtherTuples(s, s', {id}) && forall t | t in s'.tuples :: t.child != id
  {
    forall u | u in s.tuples && u.child == id ensures u.parent == s.parents[id] != "" {
      assert u in s.tuples <==> InColumn(s.parents, u);
    }
  }

  /** Adding children gives the parent to all listed groups, and a tuple to the enabled ones. */
  lemma {:induction false} AddChildrenEffect(s: State, parent: string, ids: seq<string>)
    requires Inv(s) && ChildrenFree(s, ids) && parent in s.parents && parent !in ids
    requires parent in s.registered && Found(s, ids) <= s.registered
    ensures var s' := Apply(s, AddChildren(parent, ids, false, false, false));
      && OtherColumns(s, s', Found(s, ids) + Unseen(s, ids)) && s'.enabled == s.enabled && s'.registered == s.registered
      && (forall g | g in ids && g in s.parents :: s'.parents[g] == parent)
      && OtherTuples(s, s', Found(s, ids)) && (forall g | g in Found(s, ids) :: Tuple(parent, g) in s'.tuples)
  {
    forall u | u in s.tuples ensures u.child !in Found(s, ids) {
      assert u in s.tuples <==> InColumn(s.parents, u);
    }
    assert Addable(s, TuplesOf(parent, Found(s, ids)));
  }

  /** Removing children takes the parent from all listed groups that have it, and the tuple from
      the enabled ones. */
  lemma {:induction false} RemoveChildrenEffect(s: State, parent: string, ids: seq<string>)
    requires Inv(s) && ChildrenRemovable(s, parent, ids) && parent in s.parents
    ensures var s' := Apply(s, RemoveChildren(parent, ids, false, false, false));
      && OtherColumns(s, s', Found(s, ids) + Unseen(s, ids)) && s'.enabled == s.enabled && s'.registered == s.registered
      && (forall g | g in ids && g in s.parents ::
            s'.parents[g] == if s.parents[g] == parent then "" else s.parents[g])
      && OtherTuples(s, s', Found(s, ids)) && (forall t | t in s'.tuples :: t.child !in Found(s, ids))
  {
    forall u | u in s.tuples && u.child in Found(s, ids) ensures u.parent == parent {
      assert u in s.tuples <==> InColumn(s.parents, u);
    }
  }

  /** Removing all children of a group leaves it without any, in both stores; all other column
      entries and tuples are as before. */
  lemma {:induction false} RemoveAllChildrenEffect(s: State, parent: string)
    requires parent != ""
    ensures var s' := Apply(s, RemoveAllChildren(parent, false, false));
      && s'.parents.Keys == s.parents.Keys && s'.enabled == s.enabled && s'.registered == s.registered
      && (forall g | g in s.parents :: s'.parents[g] == if s.parents[g] == parent then "" else s.parents[g])
      && (forall t: Tuple :: t in s'.tuples <==> t in s.tuples && t.parent != parent)
  {
  }

  function WithoutGroup(tuples: set<Tuple>, id: string): set<Tuple> {
    set t | t in tuples && t.parent != id && t.child != id
  }

  lemma {:induction false} WholeDelete(s: State, id: string)
    requires id in s.parents
    ensures Apply(s, Delete(id, 5)) == State(Cleared(s.parents, id) - {id}, s.enabled - {id}, s.registered - {id},
                                             WithoutGroup(s.tuples, id))
  {
    assert Apply(s, Delete(id, 5)).tuples == WithoutGroup(s.tuples, id);
  }

  /** A deleted group is gone from both stores, its children have no parent, and all else is as
      before. */
  lemma {:induction false} DeleteEffect(s: State, id: string)
    requires id in s.parents
    ensures var s' := Apply(s, Delete(id, 5));
      && s'.parents.Keys == s.parents.Keys - {id}
      && (forall g | g in s'.parents :: s'.parents[g] == if s.parents[g] == id then "" else s.parents[g])
      && s'.enabled == s.enabled - {id} && s'.registered == s.registered - {id}
      && (forall t: Tuple :: t in s'.tuples <==> t in s.tuples && t.parent != id && t.child != id)
  {
    WholeDelete(s, id);
  }

  // ----- what one call undoes

  function CleanAddParent(id: string, parent: string): Op {
    AddParent(id, parent, false, false, false)
  }

  function CleanAddChildren(parent: string, ids: seq<string>): Op {
    AddChildren(parent, ids, false, false, false)
  }

  /** Removing a parent undoes adding it, in both stores. */
  lemma {:induction false} RemoveUndoesAddParent(s: State, id: string, parent: string)
    requires Inv(s) && id in s.parents && s.parents[id] == "" && CanAssign(s.parents, parent, [id])
    requires id in s.registered && parent in s.registered
    ensures var s1 := Apply(s, CleanAddParent(id, parent));
      s1.parents[id] == parent && Apply(s1, RemoveParent(id, false, false, false)) == s
  {
    var s1 := Apply(s, CleanAddParent(id, parent));
    forall u | u in s.tuples ensures u.child != id {
      assert u in s.tuples <==> InColumn(s.parents, u);
    }
    assert Apply(s1, RemoveParent(id, false, false, false)).parents == s.parents;
  }

  /** Removing children undoes adding them, in both stores, if and only if the listed groups that
      the calls do not see had no parent. */
  lemma {:induction false} RemoveUndoesAddChildren(s: State, parent: string, ids: seq<string>)
    requires Inv(s) && ChildrenFree(s, ids) && CanAssign(s.parents, parent, ids)
    requires parent in s.registered && Found(s, ids) <= s.registered
    ensures var s1 := Apply(s, CleanAddChildren(parent, ids));
      && (forall g | g in Found(s, ids) :: s1.parents[g] == parent && Tuple(parent, g) in s1.tuples)
      && (Apply(s1, RemoveChildren(parent, ids, false, false, false)) == s <==>
            forall g | g in Unseen(s, ids) :: s.parents[g] == "")
  {
    var s1 := Apply(s, CleanAddChildren(parent, ids));
    forall u | u in s.tuples ensures u.child !in Found(s, ids) {
      assert u in s.tuples <==> InColumn(s.parents, u);
    }
    assert Addable(s, TuplesOf(parent, Found(s, ids)));
    var s2 := Apply(s1, RemoveChildren(parent, ids, false, false, false));
    assert Found(s1, ids) == Found(s, ids);
    assert s2.tuples == s.tuples && s2.enabled == s.enabled && s2.registered == s.registered;
    if s2 == s {
      forall g | g in Unseen(s, ids) ensures s.parents[g] == "" {
        assert s2.parents[g] == "";
      }
    } else {
      assert s2.parents != s.parents;
    }
  }

  lemma {:induction false} PartDelete(s: State, id: string, done: nat)
    requires id in s.parents && done < 5
    ensures var s1 := Apply(s, Delete(id, done));
      && s1.parents == s.parents && s1.enabled - {id} == s.enabled - {id} && s1.registered - {id} == s.registered - {id}
      && WithoutGroup(s1.tuples, id) == WithoutGroup(s.tuples, id)
  {
  }

  /** Repeating a deletion that ended after any of its writes ends where the whole one would have. */
  lemma {:induction false} DeleteRetry(s: State, id: string, done: nat)
    ensures Apply(Apply(s, Delete(id, done)), Delete(id, 5)) == Apply(s, Delete(id, 5))
  {
    if id in s.parents && done < 5 {
      PartDelete(s, id, done);
      WholeDelete(s, id);
      WholeDelete(Apply(s, Delete(id, done)), id);
    }
  }

  // ----- runs that leave the stores different

  function CleanCreate(id: string, parent: string): Op {
    Create(id, parent, true, false, false, false, false, false)
  }

  lemma {:induction false} TwoGroups(parent: string, after: seq<Op>)
    requires parent == "" || parent == "p"
    ensures var tuples := if parent == "" then {} else {Tuple("p", "c")};
      var s := State(map["p" := "", "c" := parent], {"p", "c"}, {"p", "c"}, tuples);
      Run(EMPTY, [CleanCreate("p", ""), CleanCreate("c", parent)] + after) == Run(s, after) && Inv(s)
  {
    var a, b := CleanCreate("p", ""), CleanCreate("c", parent);
    assert ([a, b] + after)[1..] == [b] + after && ([b] + after)[1..] == after;
    var s1 := Apply(EMPTY, a);
    var s2 := Apply(s1, b);
    assert Run(EMPTY, [a, b] + after) == Run(s1, [b] + after) == Run(s2, after);
    StepExact(EMPTY, a);
    StepKeepsWellFormed(EMPTY, a);
    StepExact(s1, b);
    StepKeepsWellFormed(s1, b);
    var tuples := if parent == "" then {} else {Tuple("p", "c")};
    assert s1 == State(map["p" := ""], {"p"}, {"p"}, {});
    assert s2.enabled == {"p", "c"} == s2.registered && s2.tuples == tuples;
    assert s2 == State(map["p" := "", "c" := parent], {"p", "c"}, {"p", "c"}, tuples);
  }

  /** Removing parentless groups while the repository fails leaves a tuple nothing accounts for. */
  lemma {:induction false} RollbackInventsTuple()
    ensures var s := Run(EMPTY, [CleanCreate("p", ""), CleanCreate("c", "")] + []);
      && Inv(s) && Tuple("p", "c") in Apply(s, RemoveChildren("p", ["c"], false, true, false)).tuples
      && !Consistent(Apply(s, RemoveChildren("p", ["c"], false, true, false)))
  {
    TwoGroups("", []);
    var s := Run(EMPTY, [CleanCreate("p", ""), CleanCreate("c", "")] + []);
    var op := RemoveChildren("p", ["c"], false, true, false);
    assert Found(s, ["c"]) == {"c"} && TuplesOf("p", {"c"}) == {Tuple("p", "c")};
    assert Differs(Apply(s, op), Tuple("p", "c"));
  }

  /** Removing all children has no rollback: a failing second write leaves the column behind. */
  lemma {:induction false} RemoveAllLosesTuples()
    ensures var s := Run(EMPTY, [CleanCreate("p", ""), CleanCreate("c", "p")] + []);
      && Inv(s) && !Consistent(Apply(s, RemoveAllChildren("p", false, true)))
      && !Consistent(Apply(s, RemoveAllChildren("", false, false)))
  {
    TwoGroups("p", []);
    var s := Run(EMPTY, [CleanCreate("p", ""), CleanCreate("c", "p")] + []);
    assert Differs(Apply(s, RemoveAllChildren("p", false, true)), Tuple("p", "c"));
    assert Differs(Apply(s, RemoveAllChildren("", false, false)), Tuple("p", "c"));
  }

  /** A rollback that fails leaves the stores different after adding a parent, and so does a
      deletion that ends in front of the row. */
  lemma {:induction false} FailedRollbackDiffers()
    ensures var s := Run(EMPTY, [CleanCreate("p", ""), CleanCreate("c", "")] + []);
      Inv(s) && !Consistent(Apply(s, AddParent("c", "p", false, true, true)))
    ensures var s := Run(EMPTY, [CleanCreate("p", ""), CleanCreate("c", "p")] + []);
      Inv(s) && !Consistent(Apply(s, Delete("p", 4)))
  {
    TwoGroups("", []);
    TwoGroups("p", []);
    var s := Run(EMPTY, [CleanCreate("p", ""), CleanCreate("c", "")] + []);
    assert Differs(Apply(s, AddParent("c", "p", false, true, true)), Tuple("p", "c"));
    var t := Run(EMPTY, [CleanCreate("p", ""), CleanCreate("c", "p")] + []);
    assert Differs(Apply(t, Delete("p", 4)), Tuple("p", "c"));
  }

  /** Without any failing store call: a disabled group that is listed with an enabled one gets a
      parent and no tuple … */
  lemma {:induction false} DisabledChildGetsNoTuple()
    ensures var disabled := Create("d", "", false, false, false, false, false, false);
      var s := Run(EMPTY, [CleanCreate("p", ""), CleanCreate("c", "")] + [disabled]);
      Inv(s) && !Consistent(Apply(s, CleanAddChildren("p", ["c", "d"])))
  {
    var disabled := Create("d", "", false, false, false, false, false, false);
    TwoGroups("", [disabled]);
    var s0 := State(map["p" := "", "c" := ""], {"p", "c"}, {"p", "c"}, {});
    assert [disabled][1..] == [];
    var s := Apply(s0, disabled);
    assert Run(s0, [disabled]) == Run(s, []) == s;
    RunKeepsInv(s0, [disabled]);
    assert Found(s, ["c", "d"]) == {"c"};
    assert Addable(s, TuplesOf("p", {"c"}));
    assert "d" in Unseen(s, ["c", "d"]);
    StepExact(s, CleanAddChildren("p", ["c", "d"]));
  }

  /** … and a child that was disabled loses its parent and keeps the tuple. */
  lemma {:induction false} DisabledChildKeepsTuple()
    ensures var after := [CleanCreate("d", "p"), SetStatus("d", false, false)];
      var s := Run(EMPTY, [CleanCreate("p", ""), CleanCreate("c", "p")] + after);
      Inv(s) && !Consistent(Apply(s, RemoveChildren("p", ["c", "d"], false, false, false)))
  {
    var create, disable := CleanCreate("d", "p"), SetStatus("d", false, false);
    TwoGroups("p", [create, disable]);
    var s0 := State(map["p" := "", "c" := "p"], {"p", "c"}, {"p", "c"}, {Tuple("p", "c")});
    assert [create, disable][1..] == [disable] && [disable][1..] == [];
    var s1 := Apply(s0, create);
    var s := Apply(s1, disable);
    assert Run(s0, [create, disable]) == Run(s1, [disable]) == Run(s, []) == s;
    RunKeepsInv(s0, [create, disable]);
    var op := RemoveChildren("p", ["c", "d"], false, false, false);
    assert Found(s, ["c", "d"]) == {"c"} && "d" in Unseen(s, ["c", "d"]);
    StepExact(s, op);
  }

  // ----- the service: two writes and a rollback

  class GroupService {
    var parents: map<string, string>
    var enabled: set<string>
    var registered: set<string>
    var tuples: set<Tuple>

    ghost function View(): State
      reads this
    {
      State(parents, enabled, registered, tuples)
    }

    constructor ()
      ensures View() == EMPTY
    {
      parents, enabled, registered, tuples := map[], {}, {}, {};
    }

    /** All or nothing; refused on an empty list and by the preconditions. */
    method AddPolicies(prs: seq<Tuple>, fails: bool) returns (ok: bool)
      modifies this`tuples
      ensures ok <==> !fails && prs != [] && Addable(old(View()), set t | t in prs)
      ensures tuples == if ok then old(tuples) + set t | t in prs else old(tuples)
    {
      if fails || prs == [] {
        return false;
      }
      for i := 0 to |prs|
        invariant tuples == old(tuples)
        invariant Addable(View(), set t | t in prs[..i])
      {
        var t := prs[i];
        if t.parent !in registered || t.child !in registered || exists u | u in tuples :: u.child == t.child {
          assert prs[i] in (set t | t in prs);
          return false;
        }
      }
      assert prs[..|prs|] == prs;
      tuples := tuples + set t | t in prs;
      return true;
    }

    method DeletePolicies(prs: seq<Tuple>, fails: bool) returns (ok: bool)
      modifies this`tuples
      ensures ok <==> !fails && prs != []
      ensures tuples == if ok then old(tuples) - set t | t in prs else old(tuples)
    {
      if fails || prs == [] {
        return false;
      }
      tuples := tuples - set t | t in prs;
      return true;
    }

    /** The transaction checks the parent and refuses a cycle; a cycle through the parent itself
        is decided here, longer ones are among the failures. */
    method AssignParentGroup(parent: string, ids: seq<string>, fails: bool) returns (ok: bool)
      modifies this`parents
      ensures ok <==> !fails && CanAssign(old(parents), parent, ids)
      ensures parents == if ok then Assigned(old(parents), parent, ids) else old(parents)
    {
      if ids == [] {
        assert parents == Assigned(parents, parent, ids);
        return !fails;
      }
      if fails || parent !in parents || parent in ids {
        return false;
      }
      parents := Assigned(parents, parent, ids);
      return true;
    }

    method UnassignParentGroup(parent: string, ids: seq<string>, fails: bool) returns (ok: bool)
      modifies this`parents
      ensures ok <==> !fails && (ids == [] || parent in old(parents))
      ensures parents == if ok then Unassigned(old(parents), parent, ids) else old(parents)
    {
      if ids == [] {
        assert parents == Unassigned(parents, parent, ids);
        return !fails;
      }
      if fails || parent !in parents {
        return false;
      }
      parents := Unassigned(parents, parent, ids);
      return true;
    }

    /** The enabled groups of the list, each once: the zero value of the status filter. */
    method RetrieveByIDs(ids: seq<string>) returns (page: seq<string>)
      ensures forall g :: g in page <==> g in Found(View(), ids)
      ensures page == [] <==> Found(View(), ids) == {}
    {
      page := [];
      for i := 0 to |ids|
        invariant forall g :: g in page <==> g in Found(View(), ids[..i])
      {
        if ids[i] in parents && ids[i] in enabled && ids[i] !in page {
          page := page + [ids[i]];
        }
      }
      assert ids[..|ids|] == ids;
      assert page != [] ==> page[0] in page;
    }

    method PoliciesFor(parent: string, page: seq<string>) returns (prs: seq<Tuple>)
      ensures |prs| == |page|
      ensures (set t | t in prs) == TuplesOf(parent, set g | g in page)
    {
      prs := [];
      for i := 0 to |page|
        invariant |prs| == i && forall k | 0 <= k < i :: prs[k] == Tuple(parent, page[k])
      {
        prs := prs + [Tuple(parent, page[i])];
      }
      assert forall g | g in page :: Tuple(parent, g) in prs;
    }

    /** The row is saved first, because the roles refer to it. A later failure takes the policies
        back, then the row; either may fail. */
    method CreateGroup(id: string, parent: string, active: bool, saveFails: bool, policiesFail: bool, rolesFail: bool,
                       unpolicyFails: bool, unsaveFails: bool) returns (ok: bool)
      requires WellFormed(View())
      modifies this
      ensures View() ==
        Apply(old(View()), Create(id, parent, active, saveFails, policiesFail, rolesFail, unpolicyFails, unsaveFails))
      ensures ok ==> !saveFails && !policiesFail && !rolesFail
      ensures ok ==> id !in old(parents) && id in parents && id in registered
      ensures !ok && !unpolicyFails && !unsaveFails ==> View() == old(View())
    {
      if saveFails || id in parents || id == "" || (parent != "" && parent !in parents) {
        return false;
      }
      parents, enabled := parents[id := parent], if active then enabled + {id} else enabled;
      ok := Register(id, parent, policiesFail, rolesFail, unpolicyFails);
      if !ok {
        Unsave(id, unsaveFails);
        assert !unsaveFails ==> parents == old(parents) && enabled == old(enabled);
      }
      assert id !in old(registered) ==> old(tuples) - {Tuple(parent, id)} == old(tuples);
    }

    /** The policies of a new group, then its roles, which take the policies back when they fail. */
    method Register(id: string, parent: string, policiesFail: bool, rolesFail: bool, unpolicyFails: bool)
      returns (ok: bool)
      modifies this`registered, this`tuples
      ensures var added := if parent == "" then {} else {Tuple(parent, id)};
        var accepted := !policiesFail && id !in old(registered) && (parent == "" || parent in old(registered));
        && (ok <==> accepted && !rolesFail)
        && (if ok || (accepted && unpolicyFails)
            then registered == old(registered) + {id} && tuples == old(tuples) + added
            else registered == old(registered) && tuples == if accepted then old(tuples) - added else old(tuples))
    {
      if policiesFail || id in registered || (parent != "" && parent !in registered) {
        return false;
      }
      var prs := if parent == "" then {} else {Tuple(parent, id)};
      registered, tuples := registered + {id}, tuples + prs;
      if rolesFail && !unpolicyFails {
        registered, tuples := registered - {id}, tuples - prs;
      }
      return !rolesFail;
    }

    /** The compensating deletion of the row. */
    method Unsave(id: string, fails: bool)
      modifies this`parents, this`enabled
      ensures parents == if fails then old(parents) else old(parents) - {id}
      ensures enabled == if fails then old(enabled) else old(enabled) - {id}
    {
      if !fails {
        parents, enabled := parents - {id}, enabled - {id};
      }
    }

    /** Enabling or disabling; the status the group has already is refused. */
    method ChangeStatus(id: string, active: bool, fails: bool) returns (ok: bool)
      modifies this`enabled
      ensures View() == Apply(old(View()), SetStatus(id, active, fails))
      ensures ok <==> !fails && id in parents && (id in old(enabled)) != active
      ensures ok ==> (id in enabled <==> active)
    {
      if fails || id !in parents || (id in enabled) == active {
        return false;
      }
      enabled := if active then enabled + {id} else enabled - {id};
      return true;
    }

    method AddParentGroup(id: string, parent: string, addFails: bool, assignFails: bool, rollbackFails: bool)
      returns (ok: bool)
      modifies this
      ensures View() == Apply(old(View()), AddParent(id, parent, addFails, assignFails, rollbackFails))
      ensures ok ==> id in parents && parents[id] == parent && Tuple(parent, id) in tuples
      ensures !ok && !rollbackFails ==> View() == old(View())
    {
      if id !in parents || parents[id] != "" {
        return false;
      }
      var pols := [Tuple(parent, id)];
      assert (set t | t in pols) == {Tuple(parent, id)};
      var added := AddPolicies(pols, addFails);
      if !added {
        return false;
      }
      var linked := AssignParentGroup(parent, [id], assignFails);
      if !linked {
        var _ := DeletePolicies(pols, rollbackFails);
        assert old(tuples) + {Tuple(parent, id)} - {Tuple(parent, id)} == old(tuples);
        return false;
      }
      return true;
    }

    method RemoveParentGroup(id: string, deleteFails: bool, unassignFails: bool, rollbackFails: bool) returns (ok: bool)
      modifies this
      ensures View() == Apply(old(View()), RemoveParent(id, deleteFails, unassignFails, rollbackFails))
      ensures ok ==> id in parents && parents[id] == ""
      ensures ok && id in old(parents) && old(parents)[id] != "" ==> Tuple(old(parents)[id], id) !in tuples
      ensures !ok && !rollbackFails && Inv(old(View())) ==> View() == old(View())
    {
      if id !in parents {
        return false;
      }
      if parents[id] == "" {
        return true;
      }
      var parent := parents[id];
      var pols := [Tuple(parent, id)];
      assert (set t | t in pols) == {Tuple(parent, id)};
      var deleted := DeletePolicies(pols, deleteFails);
      if !deleted {
        return false;
      }
      var unlinked := UnassignParentGroup(parent, [id], unassignFails);
      if !unlinked {
        var _ := AddPolicies(pols, rollbackFails);
        if Inv(old(View())) {
          forall u | u in old(tuples) && u.child == id ensures u == Tuple(parent, id) {
            assert u in old(View()).tuples <==> InColumn(old(View()).parents, u);
          }
          assert Tuple(parent, id) in old(View()).tuples <==> InColumn(old(View()).parents, Tuple(parent, id));
        }
        return false;
      }
      return true;
    }

    method AddChildrenGroups(parent: string, ids: seq<string>, addFails: bool, assignFails: bool, rollbackFails: bool)
      returns (ok: bool)
      modifies this
      ensures View() == Apply(old(View()), AddChildren(parent, ids, addFails, assignFails, rollbackFails))
      ensures ok ==> forall g | g in Found(View(), ids) :: parents[g] == parent && Tuple(parent, g) in tuples
      ensures !ok && !rollbackFails ==> View() == old(View())
    {
      var page := RetrieveByIDs(ids);
      if page == [] {
        return false;
      }
      for i := 0 to |page|
        invariant View() == old(View()) && forall g | g in page :: g in parents
        invariant forall k | 0 <= k < i :: parents[page[k]] == ""
      {
        if parents[page[i]] != "" {
          assert page[i] in Found(View(), ids);
          return false;
        }
      }
      var pols := PoliciesFor(parent, page);
      assert (set g | g in page) == Found(View(), ids);
      var added := AddPolicies(pols, addFails);
      if !added {
        return false;
      }
      var linked := AssignParentGroup(parent, ids, assignFails);
      if !linked {
        var _ := DeletePolicies(pols, rollbackFails);
        assert forall t | t in (set t | t in pols) :: t !in old(tuples);
        return false;
      }
      return true;
    }

    method RemoveChildrenGroups(parent: string, ids: seq<string>, deleteFails: bool, unassignFails: bool,
                                rollbackFails: bool)
      returns (ok: bool)
      modifies this
      ensures View() == Apply(old(View()), RemoveChildren(parent, ids, deleteFails, unassignFails, rollbackFails))
      ensures ok <==>
        ChildrenRemovable(old(View()), parent, ids) && !deleteFails && !unassignFails && parent in old(parents)
      ensures ok ==> forall g | g in Found(old(View()), ids) :: parents[g] == "" && Tuple(parent, g) !in tuples
    {
      var page := RetrieveByIDs(ids);
      if page == [] {
        return false;
      }
      for i := 0 to |page|
        invariant View() == old(View()) && forall g | g in page :: g in parents
        invariant forall k | 0 <= k < i :: parents[page[k]] == "" || parents[page[k]] == parent
      {
        if parents[page[i]] != "" && parents[page[i]] != parent {
          assert page[i] in Found(View(), ids);
          return false;
        }
      }
      var pols := PoliciesFor(parent, page);
      assert (set g | g in page) == Found(View(), ids);
      var deleted := DeletePolicies(pols, deleteFails);
      if !deleted {
        return false;
      }
      var unlinked := UnassignParentGroup(parent, ids, unassignFails);
      if !unlinked {
        var _ := AddPolicies(pols, rollbackFails);
        return false;
      }
      return true;
    }

    /** No rollback; the update reports an error also when it changed no row. */
    method RemoveAllChildrenGroups(parent: string, deleteFails: bool, unassignFails: bool) returns (ok: bool)
      modifies this
      ensures View() == Apply(old(View()), RemoveAllChildren(parent, deleteFails, unassignFails))
      ensures ok <==> !deleteFails && !unassignFails && HasChild(old(parents), parent)
      ensures ok ==> (forall g | g in parents :: parents[g] != parent) && forall t | t in tuples :: t.parent != parent
    {
      if deleteFails {
        return false;
      }
      tuples := set t | t in tuples && parent != "" && t.parent != parent;
      if unassignFails {
        return false;
      }
      var changed := parent != "" && exists g | g in parents :: parents[g] == parent;
      if parent != "" {
        parents := Cleared(parents, parent);
      }
      return changed;
    }

    /** No rollback: what the first `done` of the five writes changed stays. */
    method DeleteGroup(id: string, done: nat) returns (ok: bool)
      modifies this
      ensures View() == Apply(old(View()), Delete(id, done))
      ensures ok <==> id in old(parents) && done >= 5
    {
      if id !in parents || done == 0 {
        return false;
      }
      enabled := enabled - {id};
      if done == 1 {
        return false;
      }
      var parent := parents[id];
      if parent != "" {
        registered, tuples := registered - {id}, tuples - {Tuple(parent, id)};
      }
      if done == 2 {
        return false;
      }
      tuples := set t | t in tuples && t.parent != id;
      if done == 3 {
        return false;
      }
      registered, tuples := registered - {id}, set t | t in tuples && t.child != id;
      if done == 4 {
        return false;
      }
      parents := Cleared(parents, id) - {id};
      return true;
    }
  }
}
