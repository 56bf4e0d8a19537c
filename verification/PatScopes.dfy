/** PAT scopes: the authorization predicate, and the cache that answers it from
    concatenated string keys. */
module PatScopes {
  import opened Common
  import opened Text

  datatype EntityType = Groups | Channels | Clients | Dashboard | Messages | Domains | Users | Unknown(code: nat)

  function TypeName(et: EntityType): string {
    match et
    case Groups => "groups"
    case Channels => "channels"
    case Clients => "clients"
    case Dashboard => "dashboards"
    case Messages => "messages"
    case Domains => "domains"
    case Users => "users"
    case Unknown(code) => "unknown domain entity type " + Decimal(code)
  }

  const ANY_IDS := "*"

  datatype Scope = Scope(id: string, pat: string, domain: string, entityType: EntityType,
                         entity: string, operation: string)

  /** `Scope.Authorized` */
  predicate Authorized(s: Scope, entityType: EntityType, domain: string, operation: string, entity: string) {
    && s.entityType == entityType
    && (s.domain == "" || s.domain == domain)
    && s.operation == operation
    && (s.entity == ANY_IDS || s.entity == entity)
  }

  predicate ValidOperation(entityType: EntityType, operation: string) {
    match entityType
    case Clients | Channels | Groups | Domains => true
    case Dashboard => operation == "dashboard_share" || operation == "dashboard_unshare"
    case Messages => operation == "message_publish" || operation == "message_subscribe"
    case _ => false
  }

  /** `Scope.Validate` */
  predicate Valid(s: Scope) {
    s.entity != "" && s.domain != "" && ValidOperation(s.entityType, s.operation)
  }

  // ----- keys

  const COLON := ':'

  type Store = map<string, string>

  function KeyParts(user: string, pat: string, entityType: EntityType, domain: string, operation: string,
                    entity: string): seq<string> {
    ["pat", user, pat, TypeName(entityType), domain, operation, entity]
  }

  function GenerateKey(user: string, pat: string, entityType: EntityType, domain: string, operation: string,
                       entity: string): string {
    Join(KeyParts(user, pat, entityType, domain, operation, entity), COLON)
  }

  /** The parts of a key and their order. */
  lemma {:induction false} KeyText(user: string, pat: string, domain: string, operation: string, entity: string)
    ensures GenerateKey(user, pat, Clients, domain, operation, entity)
         == "pat" + ":" + (user + ":" + (pat + ":" + ("clients" + ":" + (domain + ":" + (operation + ":" + entity)))))
  {
    var tail := [operation] + [entity];
    JoinCons(operation, [entity], COLON);
    JoinCons(domain, tail, COLON);
    JoinCons("clients", [domain] + tail, COLON);
    JoinCons(pat, ["clients"] + ([domain] + tail), COLON);
    JoinCons(user, [pat] + (["clients"] + ([domain] + tail)), COLON);
    JoinCons("pat", [user] + ([pat] + (["clients"] + ([domain] + tail))), COLON);
    assert KeyParts(user, pat, Clients, domain, operation, entity)
        == ["pat"] + ([user] + ([pat] + (["clients"] + ([domain] + tail))));
  }

  /** What the scan pattern of a user matches: the keys with this prefix. */
  function UserPrefix(user: string): string {
    "pat:" + user + ":"
  }

  datatype Grant = Grant(user: string, scope: Scope)

  function KeyOf(g: Grant): string {
    GenerateKey(g.user, g.scope.pat, g.scope.entityType, g.scope.domain, g.scope.operation, g.scope.entity)
  }

  predicate ColonFree(g: Grant) {
    && COLON !in g.user && COLON !in g.scope.pat && COLON !in g.scope.domain
    && COLON !in g.scope.operation && COLON !in g.scope.entity
  }

  predicate WellFormed(g: Grant) {
    Valid(g.scope) && ColonFree(g)
  }

  predicate SameTarget(g: Grant, h: Grant) {
    g.user == h.user && g.scope.(id := "") == h.scope.(id := "")
  }

  lemma KnownTypeName(et: EntityType, other: EntityType)
    requires !et.Unknown? && TypeName(et) == TypeName(other)
    ensures et == other
  {}

  /** The key of a well-formed grant is the key of no other request. */
  lemma {:induction false} KeyDetermines(g: Grant, user: string, pat: string, entityType: EntityType, domain: string,
                                         operation: string, entity: string)
    requires WellFormed(g)
    requires KeyOf(g) == GenerateKey(user, pat, entityType, domain, operation, entity)
    ensures g.user == user
    ensures g.scope == Scope(g.scope.id, pat, domain, entityType, entity, operation)
  {
    var s := g.scope;
    var mine := KeyParts(g.user, s.pat, s.entityType, s.domain, s.operation, s.entity);
    var theirs := KeyParts(user, pat, entityType, domain, operation, entity);
    assert COLON !in TypeName(s.entityType);
    JoinInjective(mine, theirs, COLON);
    assert g.user == mine[1] == theirs[1] == user;
    assert s.pat == mine[2] == theirs[2] == pat;
    assert TypeName(s.entityType) == mine[3] == theirs[3] == TypeName(entityType);
    assert s.domain == mine[4] == theirs[4] == domain;
    assert s.operation == mine[5] == theirs[5] == operation;
    assert s.entity == mine[6] == theirs[6] == entity;
    KnownTypeName(s.entityType, entityType);
  }

  lemma {:induction false} KeyInjective(g: Grant, h: Grant)
    requires WellFormed(g)
    ensures KeyOf(g) == KeyOf(h) <==> SameTarget(g, h)
  {
    if KeyOf(g) == KeyOf(h) {
      KeyDetermines(g, h.user, h.scope.pat, h.scope.entityType, h.scope.domain, h.scope.operation, h.scope.entity);
    }
  }

  /** The scan of a user finds exactly the keys of that user. */
  lemma {:induction false} PrefixIffUser(g: Grant, user: string)
    requires WellFormed(g) && COLON !in user
    ensures UserPrefix(user) <= KeyOf(g) <==> g.user == user
  {
    var s := g.scope;
    var tail := Join([s.pat, TypeName(s.entityType), s.domain, s.operation, s.entity], COLON);
    var parts := KeyParts(g.user, s.pat, s.entityType, s.domain, s.operation, s.entity);
    assert parts[1..][1..] == [s.pat, TypeName(s.entityType), s.domain, s.operation, s.entity];
    assert Join(parts, COLON) == "pat" + [COLON] + (g.user + [COLON] + tail);
    assert KeyOf(g) == UserPrefix(g.user) + tail;
    if UserPrefix(user) <= KeyOf(g) {
      var rest := KeyOf(g)[|UserPrefix(user)|..];
      assert KeyOf(g) == "pat" + [COLON] + (user + [COLON] + rest);
      SplitHead("pat", user + [COLON] + rest, COLON);
      SplitHead(user, rest, COLON);
      SplitHead("pat", g.user + [COLON] + tail, COLON);
      SplitHead(g.user, tail, COLON);
      assert Split(KeyOf(g), COLON)[1] == user;
    }
  }

  // ----- the cache operations on the store

  datatype Op =
    | Save(user: string, scopes: seq<Scope>)
    | Remove(user: string, ids: seq<string>)
    | RemoveUser(user: string)
    | Expire(keys: set<string>)

  function SaveAll(store: Store, user: string, scopes: seq<Scope>): Store {
    if scopes == [] then store
    else
      var last := scopes[|scopes| - 1];
      SaveAll(store, user, scopes[..|scopes| - 1])[KeyOf(Grant(user, last)) := last.id]
  }

  function RemoveIds(store: Store, user: string, ids: seq<string>): Store {
    map k | k in store && !(UserPrefix(user) <= k && store[k] in ids) :: store[k]
  }

  function RemovePrefix(store: Store, prefix: string): Store {
    map k | k in store && !(prefix <= k) :: store[k]
  }

  function Apply(store: Store, op: Op): Store {
    match op
    case Save(user, scopes) => SaveAll(store, user, scopes)
    case Remove(user, ids) => RemoveIds(store, user, ids)
    case RemoveUser(user) => RemovePrefix(store, UserPrefix(user))
    case Expire(keys) => store - keys
  }

  function Run(ops: seq<Op>): Store {
    if ops == [] then map[] else Apply(Run(ops[..|ops| - 1]), ops[|ops| - 1])
  }

  predicate Hit(store: Store, user: string, pat: string, domain: string, entityType: EntityType, operation: string,
                entity: string) {
    || GenerateKey(user, pat, entityType, domain, operation, entity) in store
    || GenerateKey(user, pat, entityType, domain, operation, ANY_IDS) in store
  }

  // ----- the ledger of saved grants

  ghost function SaveGrants(ledger: set<Grant>, user: string, scopes: seq<Scope>): set<Grant> {
    if scopes == [] then ledger
    else
      var g := Grant(user, scopes[|scopes| - 1]);
      (set h | h in SaveGrants(ledger, user, scopes[..|scopes| - 1]) && !SameTarget(h, g)) + {g}
  }

  /** Saved and not since removed; a later save of the same target replaces an earlier one. */
  ghost function LedgerStep(ledger: set<Grant>, op: Op): set<Grant> {
    match op
    case Save(user, scopes) => SaveGrants(ledger, user, scopes)
    case Remove(user, ids) => set g | g in ledger && !(g.user == user && g.scope.id in ids)
    case RemoveUser(user) => set g | g in ledger && g.user != user
    case Expire(_) => ledger
  }

  ghost function Ledger(ops: seq<Op>): set<Grant> {
    if ops == [] then {} else LedgerStep(Ledger(ops[..|ops| - 1]), ops[|ops| - 1])
  }

  ghost predicate Granted(ledger: set<Grant>, user: string, pat: string, domain: string, entityType: EntityType,
                          operation: string, entity: string) {
    exists g | g in ledger :: g.user == user && g.scope.pat == pat &&
      Authorized(g.scope, entityType, domain, operation, entity)
  }

  predicate AcceptableOp(op: Op) {
    match op
    case Save(user, scopes) => forall s | s in scopes :: WellFormed(Grant(user, s))
    case Remove(user, _) => COLON !in user
    case RemoveUser(user) => COLON !in user
    case Expire(_) => true
  }

  // ----- the invariant between the two

  /** Every stored key is the key of a ledger entry and holds its scope ID. */
  ghost predicate Sound(store: Store, ledger: set<Grant>) {
    && (forall g | g in ledger :: WellFormed(g))
    && (forall g, h | g in ledger && h in ledger && SameTarget(g, h) :: g == h)
    && (forall k | k in store :: exists g | g in ledger :: KeyOf(g) == k && g.scope.id == store[k])
  }

  ghost predicate Complete(store: Store, ledger: set<Grant>) {
    forall g | g in ledger :: KeyOf(g) in store
  }

  lemma {:induction false} SaveKeeps(store: Store, ledger: set<Grant>, user: string, scopes: seq<Scope>)
    requires Sound(store, ledger) && forall s | s in scopes :: WellFormed(Grant(user, s))
    ensures Sound(SaveAll(store, user, scopes), SaveGrants(ledger, user, scopes))
    ensures Complete(store, ledger) ==> Complete(SaveAll(store, user, scopes), SaveGrants(ledger, user, scopes))
  {
    if scopes != [] {
      var init, g := scopes[..|scopes| - 1], Grant(user, scopes[|scopes| - 1]);
      SaveKeeps(store, ledger, user, init);
      SaveOneKeeps(SaveAll(store, user, init), SaveGrants(ledger, user, init), g);
    }
  }

  lemma {:induction false} SaveOneKeeps(store: Store, ledger: set<Grant>, g: Grant)
    requires Sound(store, ledger) && WellFormed(g)
    ensures var l := (set h | h in ledger && !SameTarget(h, g)) + {g};
      var after := store[KeyOf(g) := g.scope.id];
      Sound(after, l) && (Complete(store, ledger) ==> Complete(after, l))
  {
    var l := (set h | h in ledger && !SameTarget(h, g)) + {g};
    var after := store[KeyOf(g) := g.scope.id];
    forall k | k in after ensures exists h | h in l :: KeyOf(h) == k && h.scope.id == after[k] {
      if k == KeyOf(g) {
        assert g in l;
      } else {
        var h :| h in ledger && KeyOf(h) == k && h.scope.id == store[k];
        KeyInjective(g, h);
        assert h in l;
      }
    }
  }

  lemma {:induction false} RemoveKeeps(store: Store, ledger: set<Grant>, op: Op)
    requires Sound(store, ledger) && AcceptableOp(op) && !op.Save?
    ensures Sound(Apply(store, op), LedgerStep(ledger, op))
    ensures !op.Expire? && Complete(store, ledger) ==> Complete(Apply(store, op), LedgerStep(ledger, op))
  {
    var after, l := Apply(store, op), LedgerStep(ledger, op);
    forall k | k in after ensures exists g | g in l :: KeyOf(g) == k && g.scope.id == after[k] {
      var g :| g in ledger && KeyOf(g) == k && g.scope.id == store[k];
      if !op.Expire? {
        PrefixIffUser(g, op.user);
      }
      assert g in l;
    }
    if !op.Expire? && Complete(store, ledger) {
      forall g | g in l ensures KeyOf(g) in after {
        PrefixIffUser(g, op.user);
        var h :| h in ledger && KeyOf(h) == KeyOf(g) && h.scope.id == store[KeyOf(g)];
        KeyInjective(g, h);
      }
    }
  }

  lemma {:induction false} RunKeeps(ops: seq<Op>)
    requires forall op | op in ops :: AcceptableOp(op)
    ensures Sound(Run(ops), Ledger(ops))
    ensures (forall op | op in ops :: !op.Expire?) ==> Complete(Run(ops), Ledger(ops))
  {
    if ops != [] {
      var init, op := ops[..|ops| - 1], ops[|ops| - 1];
      RunKeeps(init);
      assert AcceptableOp(op);
      if op.Save? {
        SaveKeeps(Run(init), Ledger(init), op.user, op.scopes);
      } else {
        RemoveKeeps(Run(init), Ledger(init), op);
      }
    }
  }

  // ----- the answers agree

  /** A hit, with or without expiry in the run, is justified by a grant of the ledger. */
  lemma {:induction false} HitIsGranted(ops: seq<Op>, user: string, pat: string, domain: string,
                                        entityType: EntityType, operation: string, entity: string)
    requires forall op | op in ops :: AcceptableOp(op)
    requires Hit(Run(ops), user, pat, domain, entityType, operation, entity)
    ensures Granted(Ledger(ops), user, pat, domain, entityType, operation, entity)
  {
    RunKeeps(ops);
    var exact := GenerateKey(user, pat, entityType, domain, operation, entity);
    if exact in Run(ops) {
      var g :| g in Ledger(ops) && KeyOf(g) == exact;
      KeyDetermines(g, user, pat, entityType, domain, operation, entity);
    } else {
      var g :| g in Ledger(ops) && KeyOf(g) == GenerateKey(user, pat, entityType, domain, operation, ANY_IDS);
      KeyDetermines(g, user, pat, entityType, domain, operation, ANY_IDS);
    }
  }

  /** Without expiry the cache answers exactly as `Authorized` over the ledger, for every request. */
  lemma {:induction false} CacheAgreesWithScopes(ops: seq<Op>, user: string, pat: string, domain: string,
                                                 entityType: EntityType, operation: string, entity: string)
    requires forall op | op in ops :: AcceptableOp(op) && !op.Expire?
    ensures Hit(Run(ops), user, pat, domain, entityType, operation, entity)
       <==> Granted(Ledger(ops), user, pat, domain, entityType, operation, entity)
  {
    RunKeeps(ops);
    if Hit(Run(ops), user, pat, domain, entityType, operation, entity) {
      HitIsGranted(ops, user, pat, domain, entityType, operation, entity);
    }
    if Granted(Ledger(ops), user, pat, domain, entityType, operation, entity) {
      var g :| g in Ledger(ops) && g.user == user && g.scope.pat == pat &&
        Authorized(g.scope, entityType, domain, operation, entity);
      assert KeyOf(g) in Run(ops);
    }
  }

  // ----- pairwise distinct scopes: the plain ledger

  /** Saved and not since removed, with no replacing. */
  ghost function PlainStep(ledger: set<Grant>, op: Op): set<Grant> {
    match op
    case Save(user, scopes) => ledger + set s | s in scopes :: Grant(user, s)
    case _ => LedgerStep(ledger, op)
  }

  ghost function PlainLedger(ops: seq<Op>): set<Grant> {
    if ops == [] then {} else PlainStep(PlainLedger(ops[..|ops| - 1]), ops[|ops| - 1])
  }

  ghost predicate SavedIn(ops: seq<Op>, g: Grant) {
    exists op | op in ops :: op.Save? && op.user == g.user && g.scope in op.scopes
  }

  ghost predicate PairwiseDistinct(ops: seq<Op>) {
    forall g, h | SavedIn(ops, g) && SavedIn(ops, h) && SameTarget(g, h) :: g == h
  }

  lemma {:induction false} SaveGrantsPlain(ledger: set<Grant>, user: string, scopes: seq<Scope>)
    requires var all := ledger + set s | s in scopes :: Grant(user, s);
      forall g, h | g in all && h in all && SameTarget(g, h) :: g == h
    ensures SaveGrants(ledger, user, scopes) == ledger + set s | s in scopes :: Grant(user, s)
  {
    if scopes != [] {
      var init, last := scopes[..|scopes| - 1], scopes[|scopes| - 1];
      assert scopes == init + [last];
      assert forall s | s in init :: s in scopes;
      SaveGrantsPlain(ledger, user, init);
      var all := ledger + set s | s in scopes :: Grant(user, s);
      assert Grant(user, last) in all;
      assert all == (ledger + set s | s in init :: Grant(user, s)) + {Grant(user, last)};
    }
  }

  lemma {:induction false} PlainLedgerAgrees(ops: seq<Op>)
    requires PairwiseDistinct(ops)
    ensures Ledger(ops) == PlainLedger(ops)
    ensures forall g | g in PlainLedger(ops) :: SavedIn(ops, g)
  {
    if ops != [] {
      var init, op := ops[..|ops| - 1], ops[|ops| - 1];
      assert ops == init + [op];
      assert forall g | SavedIn(init, g) :: SavedIn(ops, g);
      PlainLedgerAgrees(init);
      if op.Save? {
        var news := set s | s in op.scopes :: Grant(op.user, s);
        assert forall g | g in news :: SavedIn(ops, g);
        SaveGrantsPlain(Ledger(init), op.user, op.scopes);
      }
    }
  }

  /** For pairwise distinct scopes: a request is a hit if and only if some saved, not since
      removed scope of that user and PAT authorizes it. */
  lemma {:induction false} DistinctScopesAgree(ops: seq<Op>, user: string, pat: string, domain: string,
                                               entityType: EntityType, operation: string, entity: string)
    requires forall op | op in ops :: AcceptableOp(op) && !op.Expire?
    requires PairwiseDistinct(ops)
    ensures Hit(Run(ops), user, pat, domain, entityType, operation, entity)
       <==> Granted(PlainLedger(ops), user, pat, domain, entityType, operation, entity)
  {
    CacheAgreesWithScopes(ops, user, pat, domain, entityType, operation, entity);
    PlainLedgerAgrees(ops);
  }

  /** Distinctness matters: one target saved under two IDs is forgotten with the second. */
  lemma {:induction false} SharedTargetIsForgotten(user: string, pat: string)
    requires COLON !in user && COLON !in pat
    ensures var s := Scope("1", pat, "d", Clients, "c", "view");
      var ops := [Save(user, [s, s.(id := "2")]), Remove(user, ["2"])];
      && !Hit(Run(ops), user, pat, "d", Clients, "view", "c")
      && Granted(PlainLedger(ops), user, pat, "d", Clients, "view", "c")
  {
    var s := Scope("1", pat, "d", Clients, "c", "view");
    var save, remove := Save(user, [s, s.(id := "2")]), Remove(user, ["2"]);
    var ops := [save, remove];
    assert ops[..1] == [save] && [save][..0] == [];
    assert WellFormed(Grant(user, s)) && WellFormed(Grant(user, s.(id := "2")));
    CacheAgreesWithScopes(ops, user, pat, "d", Clients, "view", "c");
    assert [s, s.(id := "2")][..1] == [s] && [s][..0] == [];
    assert SaveGrants({}, user, [s]) == {Grant(user, s)};
    assert Ledger([save]) == {Grant(user, s.(id := "2"))};
    assert Ledger(ops) == {};
    assert Grant(user, s) in PlainLedger([save]);
    assert Grant(user, s) in PlainLedger(ops);
  }

  lemma {:induction false} KeyColons(g: Grant)
    requires WellFormed(g)
    ensures Count(KeyOf(g), COLON) == 6
  {
    var s := g.scope;
    var parts := KeyParts(g.user, s.pat, s.entityType, s.domain, s.operation, s.entity);
    CountAllZero(parts, COLON);
    CountJoin(parts, COLON);
  }

  /** The pattern of `RemoveAllScope` has no trailing wildcard, so it names a single key,
      and no cached scope is stored under it. */
  lemma {:induction false} RemoveAllScopeFindsNothing(ops: seq<Op>, user: string, pat: string)
    requires forall op | op in ops :: AcceptableOp(op)
    requires COLON !in user && COLON !in pat
    ensures Join(["pat", user, pat], COLON) !in Run(ops)
  {
    RunKeeps(ops);
    var name := Join(["pat", user, pat], COLON);
    if name in Run(ops) {
      var g :| g in Ledger(ops) && KeyOf(g) == name;
      KeyColons(g);
      CountAllZero(["pat", user, pat], COLON);
      CountJoin(["pat", user, pat], COLON);
      assert false;
    }
  }

  // ----- the cache object

  lemma {:induction false} RunAppend(ops: seq<Op>, op: Op)
    ensures Run(ops + [op]) == Apply(Run(ops), op)
  {
    assert (ops + [op])[..|ops|] == ops;
  }

  function UserKeys(store: Store, user: string): set<string> {
    set k | k in store && UserPrefix(user) <= k
  }

  /** The keys of a set that hold one of the IDs. */
  function Holding(store: Store, keys: set<string>, ids: seq<string>): set<string> {
    set k | k in keys && k in store && store[k] in ids
  }

  /** Scans the keys of a user and deletes those that hold one of the IDs; the store call after
      `failAt` keys fails. */
  method DeleteScopes(store: Store, user: string, ids: seq<string>, failAt: nat)
    returns (rest: Store, done: bool, ghost visited: set<string>)
    ensures done <==> |UserKeys(store, user)| <= failAt
    ensures visited <= UserKeys(store, user) && (done ==> visited == UserKeys(store, user))
    ensures !done ==> |visited| == failAt
    ensures rest == store - Holding(store, visited, ids)
    ensures done ==> rest == RemoveIds(store, user, ids)
  {
    var keys := KeysOf(UserKeys(store, user));
    var n := Min(|keys|, failAt);
    rest := store;
    for i := 0 to n
      invariant rest == store - Holding(store, Elements(keys[..i]), ids)
    {
      assert keys[..i + 1] == keys[..i] + [keys[i]];
      assert keys[i] in Elements(keys);
      var found := Contains(ids, store[keys[i]]);
      if found {
        rest := rest - {keys[i]};
      }
    }
    visited := Elements(keys[..n]);
    ElementsSize(keys[..n]);
    assert keys[..|keys|] == keys;
    done := n == |keys|;
  }

  method DeleteKeys(store: Store, user: string, failAt: nat)
    returns (rest: Store, done: bool, ghost removed: set<string>)
    ensures done <==> |UserKeys(store, user)| <= failAt
    ensures removed <= UserKeys(store, user) && (!done ==> |removed| == failAt)
    ensures rest == store - removed
    ensures done ==> rest == RemovePrefix(store, UserPrefix(user))
  {
    var keys := KeysOf(UserKeys(store, user));
    var n := Min(|keys|, failAt);
    rest := store;
    for i := 0 to n
      invariant rest == store - Elements(keys[..i])
    {
      assert keys[..i + 1] == keys[..i] + [keys[i]];
      rest := rest - {keys[i]};
    }
    removed := Elements(keys[..n]);
    ElementsSize(keys[..n]);
    assert keys[..|keys|] == keys;
    done := n == |keys|;
  }

  /** The store and, as a ghost, everything that happened to it. */
  class PatCache {
    var store: Store
    ghost var history: seq<Op>

    ghost predicate Consistent()
      reads this
    {
      store == Run(history)
    }

    constructor ()
      ensures Consistent() && history == []
    {
      store, history := map[], [];
    }

    /** Times to live end. */
    method LetExpire(keys: set<string>)
      requires Consistent()
      modifies this
      ensures Consistent() && history == old(history) + [Expire(keys)]
    {
      RunAppend(history, Expire(keys));
      store := store - keys;
      history := history + [Expire(keys)];
    }

    /** Stops at the first failing write; what was written before it stays. */
    method SaveScopes(user: string, scopes: seq<Scope>, failAt: nat) returns (ok: bool)
      requires Consistent()
      modifies this
      ensures Consistent()
      ensures ok <==> failAt >= |scopes|
      ensures history == old(history) + [Save(user, if ok then scopes else scopes[..failAt])]
    {
      var n := if failAt < |scopes| then failAt else |scopes|;
      for i := 0 to n
        invariant store == SaveAll(old(store), user, scopes[..i]) && history == old(history)
      {
        var sc := scopes[i];
        assert scopes[..i + 1][..i] == scopes[..i];
        store := store[GenerateKey(user, sc.pat, sc.entityType, sc.domain, sc.operation, sc.entity) := sc.id];
      }
      ok := n == |scopes|;
      assert scopes[..|scopes|] == scopes;
      RunAppend(history, Save(user, scopes[..n]));
      history := history + [Save(user, scopes[..n])];
    }

    /** A hit is always justified by a saved scope, not since removed, that authorizes the request;
        if nothing expired and the store answers, every such request is a hit. */
    method CheckScope(user: string, pat: string, domain: string, entityType: EntityType, operation: string,
                      entity: string, fails: bool)
      returns (hit: bool)
      requires Consistent()
      ensures (forall op | op in history :: AcceptableOp(op)) && hit ==>
        Granted(Ledger(history), user, pat, domain, entityType, operation, entity)
      ensures !fails && (forall op | op in history :: AcceptableOp(op) && !op.Expire?) ==>
        (hit <==> Granted(Ledger(history), user, pat, domain, entityType, operation, entity))
    {
      var exactKey := GenerateKey(user, pat, entityType, domain, operation, entity);
      var wildcardKey := GenerateKey(user, pat, entityType, domain, operation, "*");
      if fails {
        return false;
      }
      var count := 0;
      if exactKey in store { count := count + 1; }
      if wildcardKey in store { count := count + 1; }
      hit := count > 0;
      assert hit <==> Hit(Run(history), user, pat, domain, entityType, operation, entity);
      if forall op | op in history :: AcceptableOp(op) {
        if hit {
          HitIsGranted(history, user, pat, domain, entityType, operation, entity);
        } else if forall op | op in history :: !op.Expire? {
          CacheAgreesWithScopes(history, user, pat, domain, entityType, operation, entity);
        }
      }
    }

    /** Deletes while scanning; an empty ID list is an error. A store error after `failAt` keys
        leaves what was deleted before it, as an expiry would. */
    method RemoveScopes(user: string, ids: seq<string>, failAt: nat) returns (ok: bool, ghost visited: set<string>)
      requires Consistent()
      modifies this
      ensures Consistent()
      ensures ok <==> ids != [] && |UserKeys(old(store), user)| <= failAt
      ensures visited <= UserKeys(old(store), user) && (!ok && ids != [] ==> |visited| == failAt)
      ensures history == old(history) +
        if ok then [Remove(user, ids)] else if ids == [] then [] else [Expire(Holding(old(store), visited, ids))]
    {
      if ids == [] {
        return false, {};
      }
      store, ok, visited := DeleteScopes(store, user, ids, failAt);
      ghost var op := if ok then Remove(user, ids) else Expire(Holding(old(store), visited, ids));
      RunAppend(history, op);
      history := history + [op];
    }

    method RemoveUserAllScope(user: string, failAt: nat) returns (ok: bool, ghost removed: set<string>)
      requires Consistent()
      modifies this
      ensures Consistent()
      ensures ok <==> |UserKeys(old(store), user)| <= failAt
      ensures removed <= UserKeys(old(store), user) && (!ok ==> |removed| == failAt)
      ensures history == old(history) + [if ok then RemoveUser(user) else Expire(removed)]
    {
      store, ok, removed := DeleteKeys(store, user, failAt);
      ghost var op := if ok then RemoveUser(user) else Expire(removed);
      RunAppend(history, op);
      history := history + [op];
    }
  }

  /** The inner loop of a removal: stops at the first equal ID. */
  method Contains(ids: seq<string>, val: string) returns (found: bool)
    ensures found <==> val in ids
  {
    for j := 0 to |ids|
      invariant val !in ids[..j]
    {
      if val == ids[j] {
        return true;
      }
    }
    return false;
  }
}
