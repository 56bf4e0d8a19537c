/** Domain invitations and role membership. Every call is a sequence of single store writes, any
    of which may fail and end the call; the invariants hold between any two of them. */
module Invitations {

  datatype Role = Role(domain: string, builtIn: bool)

  datatype Invitation = Invitation(role: string, confirmed: bool, rejected: bool)

  /** An invitation is keyed by invitee and domain. */
  datatype Slot = Slot(invitee: string, domain: string)

  datatype Member = Member(role: string, user: string)

  datatype Store = Store(domains: set<string>, roles: map<string, Role>, invitations: map<Slot, Invitation>,
                         members: set<Member>)

  // ----- single writes

  datatype Write =
    | SaveInvitation(slot: Slot, role: string)
    | UpdateConfirmation(slot: Slot)
    | UpdateRejection(slot: Slot, rejected: bool)
    | DeleteUsersInvitations(domain: string, users: seq<string>)
    | AddRoleMember(role: string, user: string)
    | RemoveRoleMembers(role: string, users: seq<string>)
    | RemoveAllRoleMembers(role: string)
    | RemoveDomainMembers(dropped: set<Member>)

  function Perform(s: Store, w: Write): Store {
    match w
    case SaveInvitation(slot, role) =>
      if slot in s.invitations then s
      else s.(invitations := s.invitations[slot := Invitation(role, false, false)])
    case UpdateConfirmation(slot) =>
      if slot !in s.invitations then s
      else s.(invitations := s.invitations[slot := s.invitations[slot].(confirmed := true)])
    case UpdateRejection(slot, rejected) =>
      if slot !in s.invitations then s
      else s.(invitations := s.invitations[slot := s.invitations[slot].(rejected := rejected)])
    case DeleteUsersInvitations(domain, users) =>
      s.(invitations := map x | x in s.invitations && !(x.domain == domain && x.invitee in users) :: s.invitations[x])
    case AddRoleMember(role, user) => s.(members := s.members + {Member(role, user)})
    case RemoveRoleMembers(role, users) =>
      s.(members := set m | m in s.members && !(m.role == role && m.user in users))
    case RemoveAllRoleMembers(role) => s.(members := set m | m in s.members && m.role != role)
    case RemoveDomainMembers(dropped) => s.(members := s.members - dropped)
  }

  function PerformAll(s: Store, ws: seq<Write>): Store
    decreases ws
  {
    if ws == [] then s else PerformAll(Perform(s, ws[0]), ws[1..])
  }

  // ----- the calls: what each one would write, from what it reads

  datatype Op =
    | Send(invitee: string, domain: string, role: string, resend: bool)
    | Accept(user: string, domain: string)
    | Reject(user: string, domain: string)
    | Delete(caller: string, invitee: string, domain: string)
    | RoleRemoveMembers(domain: string, role: string, users: seq<string>)
    | RoleRemoveAllMembers(domain: string, role: string)
    | RemoveEntityMembers(domain: string, users: seq<string>, dropped: set<Member>)

  function RoleMembers(s: Store, role: string): set<Member> {
    set m | m in s.members && m.role == role
  }

  predicate EntityRole(s: Store, domain: string, role: string) {
    role in s.roles && s.roles[role].domain == domain
  }

  /** A user holds at most one role of a domain: the unique constraint on member and entity. */
  predicate HoldsRoleIn(s: Store, user: string, domain: string) {
    exists m | m in s.members :: m.user == user && m.role in s.roles && s.roles[m.role].domain == domain
  }

  predicate Pending(s: Store, slot: Slot) {
    slot in s.invitations && !s.invitations[slot].confirmed && !s.invitations[slot].rejected
  }

  /** The invitation is pending, and its domain and role can be looked up. */
  predicate Answerable(s: Store, slot: Slot) {
    Pending(s, slot) && slot.domain in s.domains && s.invitations[slot].role in s.roles
  }

  /** The members that a removal of domain members may drop. The repository's own version drops
      none; any choice within the named users and the domain is covered. */
  predicate Droppable(s: Store, domain: string, users: seq<string>, dropped: set<Member>) {
    forall m | m in dropped :: m.user in users && m.role in s.roles && s.roles[m.role].domain == domain
  }

  function Plan(s: Store, op: Op): seq<Write> {
    match op
    case Send(invitee, domain, role, resend) =>
      var slot := Slot(invitee, domain);
      if role !in s.roles || domain !in s.domains then []
      else if !resend then (if slot in s.invitations then [] else [SaveInvitation(slot, role)])
      else if slot !in s.invitations || s.invitations[slot].confirmed || !s.invitations[slot].rejected then []
      else [UpdateRejection(slot, false)]
    case Accept(user, domain) =>
      var slot := Slot(user, domain);
      if !Answerable(s, slot) || !EntityRole(s, domain, s.invitations[slot].role) ||
        HoldsRoleIn(s, user, domain) then []
      else [AddRoleMember(s.invitations[slot].role, user), UpdateConfirmation(slot)]
    case Reject(user, domain) =>
      if !Answerable(s, Slot(user, domain)) then [] else [UpdateRejection(Slot(user, domain), true)]
    case Delete(caller, invitee, domain) =>
      if caller == invitee || Pending(s, Slot(invitee, domain)) then [DeleteUsersInvitations(domain, [invitee])] else []
    case RoleRemoveMembers(domain, role, users) =>
      if !EntityRole(s, domain, role) || users == [] then []
      else if s.roles[role].builtIn && |RoleMembers(s, role)| <= |users| then []
      else [DeleteUsersInvitations(domain, users), RemoveRoleMembers(role, users)]
    case RoleRemoveAllMembers(domain, role) =>
      if !EntityRole(s, domain, role) || s.roles[role].builtIn then [] else [RemoveAllRoleMembers(role)]
    case RemoveEntityMembers(domain, users, dropped) =>
      if users == [] || !Droppable(s, domain, users, dropped) then []
      else [DeleteUsersInvitations(domain, users), RemoveDomainMembers(dropped)]
  }

  /** A call whose write number `done` fails performs the writes in front of it. */
  function Apply(s: Store, op: Op, done: nat): Store {
    PerformAll(s, if done < |Plan(s, op)| then Plan(s, op)[..done] else Plan(s, op))
  }

  // ----- confirmed invitees are members

  ghost predicate SlotInv(s: Store, slot: Slot)
    requires slot in s.invitations
  {
    var inv := s.invitations[slot];
    && !(inv.confirmed && inv.rejected)
    && (inv.confirmed ==> EntityRole(s, slot.domain, inv.role) && Member(inv.role, slot.invitee) in s.members)
  }

  /** No invitation is both confirmed and rejected; a confirmed one names a role of its own domain,
      and its invitee is a member of that role. */
  ghost predicate Inv(s: Store) {
    forall slot | slot in s.invitations :: SlotInv(s, slot)
  }

  ghost predicate NoConfirmedOf(s: Store, domain: string, role: string) {
    forall slot | slot in s.invitations && slot.domain == domain && s.invitations[slot].role == role ::
      !s.invitations[slot].confirmed
  }

  /** Removing all members does not touch the invitations. */
  ghost predicate Safe(s: Store, op: Op) {
    op.RoleRemoveAllMembers? && EntityRole(s, op.domain, op.role) && !s.roles[op.role].builtIn ==>
      NoConfirmedOf(s, op.domain, op.role)
  }

  lemma {:induction false} RemoveMembersPrefix(s: Store, op: Op, done: nat)
    requires Inv(s) && (op.RoleRemoveMembers? || op.RemoveEntityMembers?)
    ensures Inv(Apply(s, op, done))
  {
    var plan := Plan(s, op);
    if plan != [] && done > 0 {
      var s1 := Perform(s, plan[0]);
      assert Inv(s1) by {
        assert forall x | x in s1.invitations :: s1.invitations[x] == s.invitations[x] && SlotInv(s, x);
      }
      assert forall x | x in s1.invitations && x.domain == op.domain :: x.invitee !in op.users;
      assert PerformAll(s, plan[..1]) == PerformAll(s1, plan[..1][1..]) == s1;
      var s2 := Perform(s1, plan[1]);
      assert plan == [plan[0]] + [plan[1]] && plan[1..] == [plan[1]] && plan[1..][1..] == [];
      assert PerformAll(s, plan) == PerformAll(s1, plan[1..]) == PerformAll(s2, []) == s2;
      assert forall x | x in s2.invitations :: SlotInv(s1, x) && SlotInv(s2, x);
    }
  }

  lemma {:induction false} AcceptPrefix(s: Store, op: Op, done: nat)
    requires Inv(s) && op.Accept?
    ensures Inv(Apply(s, op, done))
  {
    var plan := Plan(s, op);
    if plan != [] && done > 0 {
      var s1 := Perform(s, plan[0]);
      assert Inv(s1) by {
        assert forall x | x in s1.invitations :: SlotInv(s, x);
      }
      assert PerformAll(s, plan[..1]) == PerformAll(s1, plan[..1][1..]) == s1;
      var s2 := Perform(s1, plan[1]);
      assert plan[1..] == [plan[1]] && plan[1..][1..] == [];
      assert PerformAll(s, plan) == PerformAll(s1, plan[1..]) == PerformAll(s2, []) == s2;
      assert forall x | x in s2.invitations :: SlotInv(s1, x) && SlotInv(s2, x);
    }
  }

  lemma {:induction false} SingleWrite(s: Store, op: Op, done: nat)
    requires |Plan(s, op)| <= 1
    ensures Apply(s, op, done) == if done == 0 || Plan(s, op) == [] then s else Perform(s, Plan(s, op)[0])
  {
    var plan := Plan(s, op);
    if plan != [] {
      assert plan[1..] == [] && plan[..0] == [];
      assert PerformAll(s, plan) == PerformAll(Perform(s, plan[0]), []);
    }
  }

  /** Two writes one after the other. */
  lemma {:induction false} TwoWrites(s: Store, op: Op)
    requires |Plan(s, op)| == 2
    ensures Apply(s, op, 0) == s
    ensures Apply(s, op, 1) == Perform(s, Plan(s, op)[0])
    ensures forall done | done >= 2 :: Apply(s, op, done) == Perform(Perform(s, Plan(s, op)[0]), Plan(s, op)[1])
  {
    var plan := Plan(s, op);
    assert plan[..0] == [] && plan[..1] == [plan[0]] && [plan[0]][1..] == [];
    assert PerformAll(s, [plan[0]]) == PerformAll(Perform(s, plan[0]), []);
    assert plan[1..] == [plan[1]] && plan[1..][1..] == [];
    assert PerformAll(s, plan) == PerformAll(Perform(s, plan[0]), plan[1..]);
    assert PerformAll(Perform(s, plan[0]), plan[1..]) == PerformAll(Perform(Perform(s, plan[0]), plan[1]), []);
  }

  /** A call, cut off after any number of its writes, keeps the invariant if it is safe … */
  lemma {:induction false} CallKeepsInv(s: Store, op: Op, done: nat)
    requires Inv(s) && Safe(s, op)
    ensures Inv(Apply(s, op, done))
  {
    match op
    case Accept(_, _) => AcceptPrefix(s, op, done);
    case RoleRemoveMembers(_, _, _) => RemoveMembersPrefix(s, op, done);
    case RemoveEntityMembers(_, _, _) => RemoveMembersPrefix(s, op, done);
    case _ =>
      SingleWrite(s, op, done);
      var s' := Apply(s, op, done);
      forall x | x in s'.invitations ensures SlotInv(s', x) {
        if x in s.invitations {
          assert SlotInv(s, x);
        }
      }
  }

  /** … and, performed in full, only if it is safe. */
  lemma {:induction false} SafeIsExact(s: Store, op: Op)
    requires Inv(s)
    ensures Inv(Apply(s, op, |Plan(s, op)|)) <==> Safe(s, op)
  {
    if Safe(s, op) {
      CallKeepsInv(s, op, |Plan(s, op)|);
    } else {
      SingleWrite(s, op, 1);
      var slot :| slot in s.invitations && slot.domain == op.domain
        && s.invitations[slot].role == op.role && s.invitations[slot].confirmed;
      assert !SlotInv(Apply(s, op, 1), slot);
    }
  }

  // ----- runs

  datatype Call = Call(op: Op, done: nat)

  function Run(s: Store, calls: seq<Call>): Store
    decreases calls
  {
    if calls == [] then s else Run(Apply(s, calls[0].op, calls[0].done), calls[1..])
  }

  ghost predicate SafeRun(s: Store, calls: seq<Call>)
    decreases calls
  {
    calls != [] ==> Safe(s, calls[0].op) && SafeRun(Apply(s, calls[0].op, calls[0].done), calls[1..])
  }

  /** Over every run, with every call cut off after any of its writes, the invariant holds. */
  lemma {:induction false} ConfirmedAreMembers(s: Store, calls: seq<Call>)
    requires Inv(s) && SafeRun(s, calls)
    ensures Inv(Run(s, calls))
    decreases calls
  {
    if calls != [] {
      CallKeepsInv(s, calls[0].op, calls[0].done);
      ConfirmedAreMembers(Apply(s, calls[0].op, calls[0].done), calls[1..]);
    }
  }

  /** Inviting, accepting and then removing all members of a role that is not built in leaves a
      confirmed invitation whose invitee is no member. */
  lemma {:induction false} ConfirmedWithoutMember()
    ensures var s := Store({"d"}, map["r" := Role("d", false)], map[], {});
      var joined := Run(s, [Call(Send("u", "d", "r", false), 1), Call(Accept("u", "d"), 2)]);
      Inv(s) && Inv(joined) && !Inv(Apply(joined, RoleRemoveAllMembers("d", "r"), 1))
  {
    var s := Store({"d"}, map["r" := Role("d", false)], map[], {});
    var a, b := Call(Send("u", "d", "r", false), 1), Call(Accept("u", "d"), 2);
    assert [a, b][1..] == [b] && [b][1..] == [];
    SingleWrite(s, a.op, 1);
    var s1 := Apply(s, a.op, 1);
    AcceptJoins(s1, "u", "d");
    var s2 := Apply(s1, b.op, 2);
    assert Run(s, [a, b]) == Run(s1, [b]) == Run(s2, []) == s2;
    ConfirmedAreMembers(s, [a, b]);
    SafeIsExact(s2, RoleRemoveAllMembers("d", "r"));
    assert !Safe(s2, RoleRemoveAllMembers("d", "r")) by {
      assert s2.invitations[Slot("u", "d")].confirmed;
      TwoWrites(s1, b.op);
    }
  }

  // ----- what a call that goes through achieves

  /** Nothing but one invitation differs. */
  ghost predicate OnlySlot(s: Store, s': Store, slot: Slot) {
    && s'.members == s.members && s'.roles == s.roles && s'.domains == s.domains
    && forall x | x != slot :: (x in s'.invitations <==> x in s.invitations)
         && (x in s.invitations ==> s'.invitations[x] == s.invitations[x])
  }

  /** The stored invitation has this role and these two marks. */
  predicate Holds(s: Store, slot: Slot, role: string, confirmed: bool, rejected: bool) {
    slot in s.invitations && s.invitations[slot] == Invitation(role, confirmed, rejected)
  }

  /** Sending stores a new, unanswered invitation with the given role if there is none; nothing else
      changes. */
  lemma {:induction false} SendStores(s: Store, invitee: string, domain: string, role: string)
    ensures var slot, s' := Slot(invitee, domain), Apply(s, Send(invitee, domain, role, false), 1);
      && OnlySlot(s, s', slot)
      && (role in s.roles && domain in s.domains && slot !in s.invitations ==> Holds(s', slot, role, false, false))
      && (!(role in s.roles && domain in s.domains && slot !in s.invitations) ==> s' == s)
  {
    SingleWrite(s, Send(invitee, domain, role, false), 1);
  }

  /** Sending again makes exactly a rejected invitation unanswered, and keeps its role; nothing else
      changes. */
  lemma {:induction false} ResendReopens(s: Store, invitee: string, domain: string, role: string)
    requires role in s.roles && domain in s.domains
    ensures var slot, s' := Slot(invitee, domain), Apply(s, Send(invitee, domain, role, true), 1);
      && OnlySlot(s, s', slot)
      && (slot in s.invitations && s.invitations[slot].rejected && !s.invitations[slot].confirmed ==>
            Holds(s', slot, s.invitations[slot].role, false, false))
      && (!(slot in s.invitations && s.invitations[slot].rejected && !s.invitations[slot].confirmed) ==> s' == s)
  {
    SingleWrite(s, Send(invitee, domain, role, true), 1);
  }

  /** The store has the invitation, neither confirmed nor rejected, and its domain and role. */
  ghost predicate Unanswered(s: Store, slot: Slot) {
    exists role | role in s.roles :: Holds(s, slot, role, false, false) && slot.domain in s.domains
  }

  /** Rejecting marks exactly an unanswered invitation as rejected; nothing else changes. */
  lemma {:induction false} RejectMarks(s: Store, user: string, domain: string)
    ensures var slot, s' := Slot(user, domain), Apply(s, Reject(user, domain), 1);
      && OnlySlot(s, s', slot)
      && (Unanswered(s, slot) ==> Holds(s', slot, s.invitations[slot].role, false, true))
      && (!Unanswered(s, slot) ==> s' == s)
  {
    SingleWrite(s, Reject(user, domain), 1);
  }

  /** The call may reopen or delete the invitation. */
  predicate Reopens(op: Op, slot: Slot) {
    match op
    case Send(invitee, domain, _, resend) => resend && Slot(invitee, domain) == slot
    case Delete(_, invitee, domain) => Slot(invitee, domain) == slot
    case RoleRemoveMembers(domain, _, users) => domain == slot.domain && slot.invitee in users
    case RemoveEntityMembers(domain, users, _) => domain == slot.domain && slot.invitee in users
    case _ => false
  }

  lemma {:induction false} RejectedStays(s: Store, op: Op, done: nat, slot: Slot, role: string)
    requires Holds(s, slot, role, false, true) && !Reopens(op, slot)
    ensures Holds(Apply(s, op, done), slot, role, false, true)
  {
    if |Plan(s, op)| == 2 {
      TwoWrites(s, op);
    } else {
      SingleWrite(s, op, done);
    }
  }

  /** A rejected invitation cannot be accepted, in every run until it is sent again or deleted. */
  lemma {:induction false} RejectedIsRefused(s: Store, calls: seq<Call>, slot: Slot, role: string)
    requires Holds(s, slot, role, false, true)
    requires forall c | c in calls :: !Reopens(c.op, slot)
    ensures Holds(Run(s, calls), slot, role, false, true)
    ensures Plan(Run(s, calls), Accept(slot.invitee, slot.domain)) == []
    decreases calls
  {
    if calls != [] {
      assert calls[0] in calls;
      assert forall c | c in calls[1..] :: c in calls;
      RejectedStays(s, calls[0].op, calls[0].done, slot, role);
      RejectedIsRefused(Apply(s, calls[0].op, calls[0].done), calls[1..], slot, role);
    }
  }

  /** The invitee deletes the invitation in every state; anyone else exactly an unanswered one;
      nothing else changes. */
  lemma {:induction false} DeleteRemoves(s: Store, caller: string, invitee: string, domain: string)
    ensures var slot, s' := Slot(invitee, domain), Apply(s, Delete(caller, invitee, domain), 1);
      && OnlySlot(s, s', slot)
      && (slot in s'.invitations <==>
            slot in s.invitations && caller != invitee
            && (s.invitations[slot].confirmed || s.invitations[slot].rejected))
      && (slot in s'.invitations ==> s'.invitations[slot] == s.invitations[slot])
  {
    SingleWrite(s, Delete(caller, invitee, domain), 1);
  }

  /** Removing all members empties a role of the domain that is not built in, and touches nothing
      else. */
  lemma {:induction false} RemoveAllEmpties(s: Store, domain: string, role: string)
    ensures var s' := Apply(s, RoleRemoveAllMembers(domain, role), 1);
      && s'.invitations == s.invitations && s'.roles == s.roles
      && (forall m: Member | m.role != role :: m in s'.members <==> m in s.members)
      && (role in s.roles && s.roles[role].domain == domain && !s.roles[role].builtIn ==> RoleMembers(s', role) == {})
      && (!(role in s.roles && s.roles[role].domain == domain && !s.roles[role].builtIn) ==> s' == s)
  {
    SingleWrite(s, RoleRemoveAllMembers(domain, role), 1);
  }

  /** Removing domain members deletes exactly their invitations, and drops exactly the members that
      the repository drops. */
  lemma {:induction false} DomainRemovalDeletes(s: Store, domain: string, users: seq<string>, dropped: set<Member>)
    requires users != [] && Droppable(s, domain, users, dropped)
    ensures var s' := Apply(s, RemoveEntityMembers(domain, users, dropped), 2);
      && s'.members == s.members - dropped && s'.roles == s.roles
      && (forall x :: x in s'.invitations <==> x in s.invitations && !(x.domain == domain && x.invitee in users))
      && (forall x | x in s'.invitations :: s'.invitations[x] == s.invitations[x])
  {
    TwoWrites(s, RemoveEntityMembers(domain, users, dropped));
  }

  /** A pending invitation to a role of its domain, accepted by someone who holds no role there,
      makes the invitee a member and is confirmed; nothing else changes. */
  lemma {:induction false} AcceptJoins(s: Store, user: string, domain: string)
    requires Unanswered(s, Slot(user, domain)) && s.roles[s.invitations[Slot(user, domain)].role].domain == domain
    requires forall m | m in s.members && m.user == user && m.role in s.roles :: s.roles[m.role].domain != domain
    ensures var slot := Slot(user, domain); var s' := Apply(s, Accept(user, domain), 2);
      && s'.members == s.members + {Member(s.invitations[slot].role, user)}
      && s'.invitations == s.invitations[slot := s.invitations[slot].(confirmed := true)]
  {
    TwoWrites(s, Accept(user, domain));
  }

  /** Members removed from a role are gone from it and have no invitation to the domain left;
      everyone else keeps both. */
  lemma {:induction false} RemovalIsComplete(s: Store, domain: string, role: string, users: seq<string>)
    requires EntityRole(s, domain, role) && users != []
    requires s.roles[role].builtIn ==> |RoleMembers(s, role)| > |users|
    ensures var s' := Apply(s, RoleRemoveMembers(domain, role, users), 2);
      && (forall u :: Member(role, u) in s'.members <==> Member(role, u) in s.members && u !in users)
      && (forall x :: x in s'.invitations <==> x in s.invitations && !(x.domain == domain && x.invitee in users))
  {
    TwoWrites(s, RoleRemoveMembers(domain, role, users));
  }

  // ----- a built-in role keeps a member

  lemma {:induction false} DistinctUsers(role: string, users: seq<string>)
    ensures |set u | u in users :: Member(role, u)| <= |users|
  {
    var all := set u | u in users :: Member(role, u);
    if users == [] {
      assert all == {};
    } else {
      var init, last := users[..|users| - 1], users[|users| - 1];
      DistinctUsers(role, init);
      assert users == init + [last];
      assert all == (set u | u in init :: Member(role, u)) + {Member(role, last)};
    }
  }

  /** More members than names on the list leaves one, however often a name is repeated. */
  lemma {:induction false} SomeoneRemains(members: set<Member>, role: string, users: seq<string>)
    requires |members| > |users| && forall m | m in members :: m.role == role
    ensures exists m | m in members :: m.user !in users
  {
    var named := set u | u in users :: Member(role, u);
    DistinctUsers(role, users);
    if forall m | m in members :: m.user in users {
      assert members <= named;
      SubsetSize(members, named);
      assert false;
    }
  }

  lemma {:induction false} SubsetSize<T>(a: set<T>, b: set<T>)
    requires a <= b
    ensures |a| <= |b|
  {
    if a != {} {
      var x :| x in a;
      SubsetSize(a - {x}, b - {x});
    }
  }

  lemma {:induction false} MembersSurviveCall(s: Store, op: Op, done: nat, role: string)
    requires role in s.roles && s.roles[role].builtIn && RoleMembers(s, role) != {}
    requires op.RemoveEntityMembers? ==> forall m | m in op.dropped :: m.role != role
    ensures RoleMembers(Apply(s, op, done), role) != {}
    ensures Apply(s, op, done).roles == s.roles
  {
    var plan := Plan(s, op);
    var m :| m in RoleMembers(s, role);
    if op.RoleRemoveMembers? && op.role == role && plan != [] {
      SomeoneRemains(RoleMembers(s, role), role, op.users);
      m :| m in RoleMembers(s, role) && m.user !in op.users;
    }
    KeepsMember(s, if done < |plan| then plan[..done] else plan, m);
    assert m in RoleMembers(Apply(s, op, done), role);
  }

  predicate Spares(w: Write, m: Member) {
    match w
    case RemoveRoleMembers(role, users) => !(m.role == role && m.user in users)
    case RemoveAllRoleMembers(role) => m.role != role
    case RemoveDomainMembers(dropped) => m !in dropped
    case _ => true
  }

  lemma {:induction false} KeepsMember(s: Store, ws: seq<Write>, m: Member)
    requires m in s.members && forall w | w in ws :: Spares(w, m)
    ensures m in PerformAll(s, ws).members && PerformAll(s, ws).roles == s.roles
    decreases ws
  {
    if ws != [] {
      assert Spares(ws[0], m);
      KeepsMember(Perform(s, ws[0]), ws[1..], m);
    }
  }

  /** A built-in role that has a member never becomes empty, over every run of these calls; removing
      domain members must drop nobody of the role, and the repository's version drops nobody. */
  lemma {:induction false} BuiltInRoleKeepsMember(s: Store, calls: seq<Call>, role: string)
    requires role in s.roles && s.roles[role].builtIn && RoleMembers(s, role) != {}
    requires forall c | c in calls && c.op.RemoveEntityMembers? :: forall m | m in c.op.dropped :: m.role != role
    ensures RoleMembers(Run(s, calls), role) != {}
    decreases calls
  {
    if calls != [] {
      MembersSurviveCall(s, calls[0].op, calls[0].done, role);
      BuiltInRoleKeepsMember(Apply(s, calls[0].op, calls[0].done), calls[1..], role);
    }
  }

  // ----- repeating a cut-off call

  /** An accept that made the invitee a member and did not confirm. */
  predicate HalfAccepted(s: Store, op: Op, done: nat) {
    op.Accept? && done == 1 && Plan(s, op) != []
  }

  lemma {:induction false} RetryAccept(s: Store, op: Op, done: nat)
    requires op.Accept?
    ensures Apply(Apply(s, op, done), op, 2) == Apply(s, op, 2) <==> !HalfAccepted(s, op, done)
  {
    if Plan(s, op) == [] {
      SingleWrite(s, op, done);
      SingleWrite(s, op, 2);
    } else {
      TwoWrites(s, op);
      var s1, slot := Apply(s, op, done), Slot(op.user, op.domain);
      if done > 0 {
        assert Member(s.invitations[slot].role, op.user) in s1.members;
        assert HoldsRoleIn(s1, op.user, op.domain) && Plan(s1, op) == [];
        SingleWrite(s1, op, 2);
        assert Apply(s, op, 2).invitations[slot].confirmed;
      }
    }
  }

  lemma {:induction false} RetryRemoval(s: Store, op: Op, done: nat)
    requires op.RoleRemoveMembers? || op.RemoveEntityMembers?
    ensures Apply(Apply(s, op, done), op, 2) == Apply(s, op, 2)
  {
    var s1 := Apply(s, op, done);
    if Plan(s, op) == [] {
      SingleWrite(s, op, done);
      SingleWrite(s, op, 2);
    } else {
      TwoWrites(s, op);
      if Plan(s1, op) == [] {
        SingleWrite(s1, op, 2);
      } else {
        TwoWrites(s1, op);
      }
    }
  }

  /** Repeating a cut-off call ends where the whole call would have, if and only if it is not an
      accept between its two writes: the invitee holds the role then, and is refused. */
  lemma {:induction false} RetryExact(s: Store, op: Op, done: nat)
    ensures Apply(Apply(s, op, done), op, 2) == Apply(s, op, 2) <==> !HalfAccepted(s, op, done)
  {
    match op
    case Accept(_, _) => RetryAccept(s, op, done);
    case RoleRemoveMembers(_, _, _) => RetryRemoval(s, op, done);
    case RemoveEntityMembers(_, _, _) => RetryRemoval(s, op, done);
    case _ =>
      SingleWrite(s, op, done);
      SingleWrite(s, op, 2);
      SingleWrite(Apply(s, op, done), op, 2);
      assert Apply(Apply(s, op, done), op, 2).invitations == Apply(s, op, 2).invitations;
  }

  /** The call may take the membership away. */
  predicate Removes(op: Op, m: Member) {
    match op
    case RoleRemoveMembers(_, role, users) => m.role == role && m.user in users
    case RoleRemoveAllMembers(_, role) => m.role == role
    case RemoveEntityMembers(_, _, dropped) => m in dropped
    case _ => false
  }

  /** Whoever holds a role of the domain can accept no invitation to it, in every run until the
      membership is taken away; so a half-accepted invitation stays unconfirmed. */
  lemma {:induction false} HalfAcceptedBlocks(s: Store, calls: seq<Call>, m: Member, domain: string)
    requires m in s.members && EntityRole(s, domain, m.role)
    requires forall c | c in calls :: !Removes(c.op, m)
    ensures m in Run(s, calls).members && Plan(Run(s, calls), Accept(m.user, domain)) == []
    decreases calls
  {
    if calls != [] {
      var op, done := calls[0].op, calls[0].done;
      assert calls[0] in calls;
      assert forall c | c in calls[1..] :: c in calls;
      var plan := Plan(s, op);
      KeepsMember(s, if done < |plan| then plan[..done] else plan, m);
      HalfAcceptedBlocks(Apply(s, op, done), calls[1..], m, domain);
    }
  }

  /** An invitation that is sent, and accepted up to the membership, is pending and refuses to be
      accepted again. */
  lemma {:induction false} HalfAcceptIsStuck()
    ensures var s := Store({"d"}, map["r" := Role("d", false)], map[], {});
      var half := Run(s, [Call(Send("u", "d", "r", false), 1), Call(Accept("u", "d"), 1)]);
      Pending(half, Slot("u", "d")) && Plan(half, Accept("u", "d")) == []
  {
    var s := Store({"d"}, map["r" := Role("d", false)], map[], {});
    var a, b := Call(Send("u", "d", "r", false), 1), Call(Accept("u", "d"), 1);
    assert [a, b][1..] == [b] && [b][1..] == [];
    SingleWrite(s, a.op, 1);
    var s1 := Apply(s, a.op, 1);
    TwoWrites(s1, b.op);
    var half := Apply(s1, b.op, 1);
    assert Run(s, [a, b]) == Run(s1, [b]) == Run(half, []) == half;
    HalfAcceptedBlocks(half, [], Member("r", "u"), "d");
  }

  // ----- the service

  /** A new invitation needs a free slot; a resent one needs a write only if it was rejected. */
  predicate CanSend(invitations: map<Slot, Invitation>, slot: Slot, resend: bool, failing: nat) {
    if resend then slot in invitations && !invitations[slot].confirmed && (invitations[slot].rejected ==> failing > 0)
    else slot !in invitations && failing > 0
  }

  /** `failing` is the number of writes after which the next one fails. */
  class DomainService {
    const domains: set<string>
    const roles: map<string, Role>
    var invitations: map<Slot, Invitation>
    var members: set<Member>

    ghost function View(): Store
      reads this
    {
      Store(domains, roles, invitations, members)
    }

    constructor (domains: set<string>, roles: map<string, Role>, members: set<Member>)
      ensures View() == Store(domains, roles, map[], members)
    {
      this.domains, this.roles, this.members := domains, roles, members;
      invitations := map[];
    }

    method IsPending(slot: Slot) returns (pending: bool)
      ensures pending <==> Pending(View(), slot)
    {
      return slot in invitations && !invitations[slot].confirmed && !invitations[slot].rejected;
    }

    /** Pending, and the names of the domain and the role can be filled in. */
    method IsAnswerable(slot: Slot) returns (answerable: bool)
      ensures answerable <==> Answerable(View(), slot)
    {
      var pending := IsPending(slot);
      return pending && slot.domain in domains && invitations[slot].role in roles;
    }

    method SendInvitation(invitee: string, domain: string, role: string, resend: bool, failing: nat) returns (ok: bool)
      modifies this
      ensures View() == Apply(old(View()), Send(invitee, domain, role, resend), failing)
      ensures ok && !resend ==> Holds(View(), Slot(invitee, domain), role, false, false)
      ensures ok && resend ==> Pending(View(), Slot(invitee, domain))
      ensures ok <==>
        role in roles && domain in domains && CanSend(old(invitations), Slot(invitee, domain), resend, failing)
    {
      ghost var op := Send(invitee, domain, role, resend);
      SingleWrite(View(), op, failing);
      var slot := Slot(invitee, domain);
      if role !in roles || domain !in domains {
        return false;
      }
      if resend {
        if slot !in invitations || invitations[slot].confirmed {
          return false;
        }
        if invitations[slot].rejected {
          if failing == 0 {
            return false;
          }
          invitations := invitations[slot := invitations[slot].(rejected := false)];
        }
        return true;
      }
      if failing == 0 || slot in invitations {
        return false;
      }
      invitations := invitations[slot := Invitation(role, false, false)];
      return true;
    }

    /** Membership first, confirmation second. */
    method AcceptInvitation(user: string, domain: string, failing: nat) returns (ok: bool)
      modifies this
      ensures View() == Apply(old(View()), Accept(user, domain), failing)
      ensures ok <==> Plan(old(View()), Accept(user, domain)) != [] && failing >= 2
      ensures ok ==> Slot(user, domain) in invitations && invitations[Slot(user, domain)].confirmed
      ensures ok ==> Member(invitations[Slot(user, domain)].role, user) in members
    {
      var slot := Slot(user, domain);
      var answerable := IsAnswerable(slot);
      if !answerable {
        return false;
      }
      var role := invitations[slot].role;
      if roles[role].domain != domain {
        return false;
      }
      if exists m | m in members :: m.user == user && m.role in roles && roles[m.role].domain == domain {
        return false;
      }
      TwoWrites(View(), Accept(user, domain));
      if failing == 0 {
        return false;
      }
      members := members + {Member(role, user)};
      if failing == 1 {
        return false;
      }
      invitations := invitations[slot := invitations[slot].(confirmed := true)];
      return true;
    }

    method RejectInvitation(user: string, domain: string, failing: nat) returns (ok: bool)
      modifies this
      ensures View() == Apply(old(View()), Reject(user, domain), failing)
      ensures ok <==> Answerable(old(View()), Slot(user, domain)) && failing >= 1
      ensures ok ==> Slot(user, domain) in invitations && invitations[Slot(user, domain)].rejected
    {
      SingleWrite(View(), Reject(user, domain), failing);
      var answerable := IsAnswerable(Slot(user, domain));
      if !answerable || failing == 0 {
        return false;
      }
      invitations := invitations[Slot(user, domain) := invitations[Slot(user, domain)].(rejected := true)];
      return true;
    }

    /** The invitee may delete in any state, anyone else only a pending invitation. */
    method DeleteInvitation(caller: string, invitee: string, domain: string, failing: nat) returns (ok: bool)
      modifies this
      ensures View() == Apply(old(View()), Delete(caller, invitee, domain), failing)
      ensures ok <==> Slot(invitee, domain) in old(invitations) && Slot(invitee, domain) !in invitations
    {
      SingleWrite(View(), Delete(caller, invitee, domain), failing);
      if caller != invitee {
        var pending := IsPending(Slot(invitee, domain));
        if !pending {
          return false;
        }
      }
      if failing == 0 {
        return false;
      }
      var found := Slot(invitee, domain) in invitations;
      invitations := map x | x in invitations && !(x.domain == domain && x.invitee in [invitee]) :: invitations[x];
      return found;
    }

    /** Invitations first, membership second. */
    method RemoveMembersOfRole(domain: string, role: string, users: seq<string>, failing: nat) returns (ok: bool)
      modifies this
      ensures View() == Apply(old(View()), RoleRemoveMembers(domain, role, users), failing)
      ensures ok <==> Plan(old(View()), RoleRemoveMembers(domain, role, users)) != [] && failing >= 2
      ensures ok ==> forall u | u in users :: Member(role, u) !in members && Slot(u, domain) !in invitations
    {
      if role !in roles || roles[role].domain != domain {
        return false;
      }
      if roles[role].builtIn {
        var total := |set m | m in members && m.role == role|;
        if total <= |users| {
          return false;
        }
      }
      if users == [] {
        return false;
      }
      TwoWrites(View(), RoleRemoveMembers(domain, role, users));
      if failing == 0 {
        return false;
      }
      invitations := map x | x in invitations && !(x.domain == domain && x.invitee in users) :: invitations[x];
      if failing == 1 {
        return false;
      }
      members := set m | m in members && !(m.role == role && m.user in users);
      return true;
    }

    method RemoveAllMembersOfRole(domain: string, role: string, failing: nat) returns (ok: bool)
      modifies this
      ensures View() == Apply(old(View()), RoleRemoveAllMembers(domain, role), failing)
      ensures ok <==> Plan(old(View()), RoleRemoveAllMembers(domain, role)) != [] && failing > 0
      ensures ok ==> RoleMembers(View(), role) == {} && !roles[role].builtIn
    {
      SingleWrite(View(), RoleRemoveAllMembers(domain, role), failing);
      if role !in roles || roles[role].domain != domain || roles[role].builtIn || failing == 0 {
        return false;
      }
      members := set m | m in members && m.role != role;
      return true;
    }

    /** Invitations first; the repository then drops no membership of its own. */
    method RemoveMembersOfDomain(domain: string, users: seq<string>, failing: nat) returns (ok: bool)
      modifies this
      ensures View() == Apply(old(View()), RemoveEntityMembers(domain, users, {}), failing)
      ensures ok <==> users == [] || failing >= 2
      ensures ok ==> forall u | u in users :: Slot(u, domain) !in invitations
    {
      if users == [] {
        return true;
      }
      TwoWrites(View(), RemoveEntityMembers(domain, users, {}));
      if failing == 0 {
        return false;
      }
      invitations := map x | x in invitations && !(x.domain == domain && x.invitee in users) :: invitations[x];
      assert members - {} == members;
      return failing > 1;
    }
  }
}
