/** The life of a personal access token: create, reset, revoke, delete, and which presented
    secret is accepted after any history of these calls. The hash is ideal: it compares equal
    with the text it was made from and with no other. */
module PatLifecycle {
  import opened PatSecret

  datatype Hash = Hashed(plain: string)

  predicate Compare(plain: string, h: Hash) {
    h.plain == plain
  }

  /** A row of the `pats` table; its key is the PAT's identifier alone. */
  datatype Row = Row(user: Uuid, hash: Hash, revoked: bool, expires: int)

  type Table = map<Uuid, Row>

  /** The calls, with the store calls that fail in them; a failing first store call stands for
      every earlier error return as well. */
  datatype Op =
    | Create(user: Uuid, pat: Uuid, randomPart: string, expires: int, saveFails: bool)
    | Reset(user: Uuid, pat: Uuid, randomPart: string, expires: int, hashFails: bool, reactivateFails: bool)
    | Revoke(user: Uuid, pat: Uuid, fails: bool)
    | Delete(user: Uuid, pat: Uuid, fails: bool)
    | DeleteAll(user: Uuid, fails: bool, cacheFails: bool)

  predicate Owns(t: Table, user: Uuid, pat: Uuid) {
    pat in t && t[pat].user == user
  }

  function Apply(t: Table, op: Op): Table {
    match op
    case Create(user, pat, randomPart, expires, saveFails) =>
      if saveFails || pat in t then t
      else t[pat := Row(user, Hashed(Secret(user, pat, randomPart)), false, expires)]
    case Reset(user, pat, randomPart, expires, hashFails, reactivateFails) =>
      if hashFails || !Owns(t, user, pat) then t
      else
        var row := t[pat].(hash := Hashed(Secret(user, pat, randomPart)), expires := expires);
        t[pat := if reactivateFails then row else row.(revoked := false)]
    case Revoke(user, pat, fails) =>
      if fails || !Owns(t, user, pat) then t else t[pat := t[pat].(revoked := true)]
    case Delete(user, pat, fails) =>
      if fails || !Owns(t, user, pat) then t else t - {pat}
    case DeleteAll(user, fails, _) =>
      if fails then t else map p | p in t && t[p].user != user :: t[p]
  }

  function Run(h: seq<Op>): Table {
    if h == [] then map[] else Apply(Run(h[..|h| - 1]), h[|h| - 1])
  }

  predicate Accepts(t: Table, secret: string, now: int) {
    match ReadSecret(secret)
    case Ids(user, pat) =>
      Owns(t, user, pat) && !t[pat].revoked && now <= t[pat].expires && Compare(secret, t[pat].hash)
    case _ => false
  }

  // ----- what happened at a position of the history

  /** Call `i` stored the hash of a new secret for the PAT. */
  predicate Rotates(h: seq<Op>, i: nat, user: Uuid, pat: Uuid)
    requires i < |h|
  {
    match h[i]
    case Create(u, p, _, _, saveFails) => u == user && p == pat && !saveFails && pat !in Run(h[..i])
    case Reset(u, p, _, _, hashFails, _) => u == user && p == pat && !hashFails && Owns(Run(h[..i]), user, pat)
    case _ => false
  }

  /** Call `i` handed a secret out: a create, or a reset in which both writes succeeded. */
  predicate Issues(h: seq<Op>, i: nat, user: Uuid, pat: Uuid)
    requires i < |h|
  {
    Rotates(h, i, user, pat) && (h[i].Reset? ==> !h[i].reactivateFails)
  }

  predicate Deletes(op: Op, user: Uuid, pat: Uuid) {
    match op
    case Delete(u, p, fails) => u == user && p == pat && !fails
    case DeleteAll(u, fails, _) => u == user && !fails
    case _ => false
  }

  predicate Revokes(op: Op, user: Uuid, pat: Uuid) {
    op.Revoke? && op.user == user && op.pat == pat && !op.fails
  }

  /** The secret stored for the PAT is the one of call `i`. */
  ghost predicate StoredAt(h: seq<Op>, i: nat, user: Uuid, pat: Uuid) {
    && i < |h| && Rotates(h, i, user, pat)
    && forall j | i < j < |h| :: !Rotates(h, j, user, pat) && !Deletes(h[j], user, pat)
  }

  /** The PAT is active since call `i`. */
  ghost predicate ActiveSince(h: seq<Op>, i: nat, user: Uuid, pat: Uuid) {
    && i < |h| && Issues(h, i, user, pat)
    && forall j | i < j < |h| :: !Revokes(h[j], user, pat) && !Deletes(h[j], user, pat)
  }

  function NewSecret(op: Op): string
    requires op.Create? || op.Reset?
  {
    Secret(op.user, op.pat, op.randomPart)
  }

  // ----- the table against the history

  lemma {:induction false} PrefixPositions(h: seq<Op>, user: Uuid, pat: Uuid)
    requires h != []
    ensures forall i | 0 <= i < |h| - 1 :: Rotates(h[..|h| - 1], i, user, pat) == Rotates(h, i, user, pat)
  {
    var init := h[..|h| - 1];
    forall i | 0 <= i < |h| - 1 ensures Rotates(init, i, user, pat) == Rotates(h, i, user, pat) {
      assert init[..i] == h[..i];
    }
  }

  /** The secret stored by call `i` stays in the table until the PAT is rotated or deleted … */
  lemma {:induction false} StoredStays(h: seq<Op>, i: nat, user: Uuid, pat: Uuid)
    requires StoredAt(h, i, user, pat)
    ensures Owns(Run(h), user, pat)
    ensures Run(h)[pat].hash == Hashed(NewSecret(h[i])) && Run(h)[pat].expires == h[i].expires
  {
    if i < |h| - 1 {
      PrefixPositions(h, user, pat);
      StoredStays(h[..|h| - 1], i, user, pat);
      assert !Rotates(h, |h| - 1, user, pat) && !Deletes(h[|h| - 1], user, pat);
    }
  }

  lemma {:induction false} StoredBefore(h: seq<Op>, user: Uuid, pat: Uuid)
    requires h != [] && Owns(Run(h), user, pat) && !Rotates(h, |h| - 1, user, pat)
    ensures Owns(Run(h[..|h| - 1]), user, pat) && !Deletes(h[|h| - 1], user, pat)
  {
    var t, op := Run(h[..|h| - 1]), h[|h| - 1];
    assert Run(h) == Apply(t, op);
  }

  lemma {:induction false} StoredExtends(h: seq<Op>, i: nat, user: Uuid, pat: Uuid)
    requires h != [] && StoredAt(h[..|h| - 1], i, user, pat)
    requires !Rotates(h, |h| - 1, user, pat) && !Deletes(h[|h| - 1], user, pat)
    ensures StoredAt(h, i, user, pat)
  {
    PrefixPositions(h, user, pat);
  }

  /** … and whatever the table holds was stored by some call. */
  lemma {:induction false} StoredWhen(h: seq<Op>, user: Uuid, pat: Uuid) returns (i: nat)
    requires Owns(Run(h), user, pat)
    ensures StoredAt(h, i, user, pat)
  {
    if Rotates(h, |h| - 1, user, pat) {
      i := |h| - 1;
    } else {
      StoredBefore(h, user, pat);
      i := StoredWhen(h[..|h| - 1], user, pat);
      StoredExtends(h, i, user, pat);
    }
  }

  lemma {:induction false} ActiveStays(h: seq<Op>, i: nat, user: Uuid, pat: Uuid)
    requires ActiveSince(h, i, user, pat)
    ensures Owns(Run(h), user, pat) && !Run(h)[pat].revoked
  {
    if i < |h| - 1 {
      PrefixPositions(h, user, pat);
      ActiveStays(h[..|h| - 1], i, user, pat);
      assert !Revokes(h[|h| - 1], user, pat) && !Deletes(h[|h| - 1], user, pat);
    }
  }

  lemma {:induction false} ActiveBefore(h: seq<Op>, user: Uuid, pat: Uuid)
    requires h != [] && Owns(Run(h), user, pat) && !Run(h)[pat].revoked && !Issues(h, |h| - 1, user, pat)
    ensures var init := h[..|h| - 1];
      && Owns(Run(init), user, pat) && !Run(init)[pat].revoked
      && !Revokes(h[|h| - 1], user, pat) && !Deletes(h[|h| - 1], user, pat)
  {
    var t, op := Run(h[..|h| - 1]), h[|h| - 1];
    assert Run(h) == Apply(t, op);
  }

  lemma {:induction false} ActiveExtends(h: seq<Op>, i: nat, user: Uuid, pat: Uuid)
    requires h != [] && ActiveSince(h[..|h| - 1], i, user, pat)
    requires !Revokes(h[|h| - 1], user, pat) && !Deletes(h[|h| - 1], user, pat)
    ensures ActiveSince(h, i, user, pat)
  {
    PrefixPositions(h, user, pat);
  }

  lemma {:induction false} ActiveWhen(h: seq<Op>, user: Uuid, pat: Uuid) returns (i: nat)
    requires Owns(Run(h), user, pat) && !Run(h)[pat].revoked
    ensures ActiveSince(h, i, user, pat)
  {
    if Issues(h, |h| - 1, user, pat) {
      i := |h| - 1;
    } else {
      ActiveBefore(h, user, pat);
      i := ActiveWhen(h[..|h| - 1], user, pat);
      ActiveExtends(h, i, user, pat);
    }
  }

  ghost predicate RandomParts(h: seq<Op>) {
    forall op | op in h && (op.Create? || op.Reset?) :: RandomPart(op.randomPart)
  }

  ghost predicate LastRotation(h: seq<Op>, secret: string, now: int, i: nat, r: nat, user: Uuid, pat: Uuid) {
    StoredAt(h, i, user, pat) && NewSecret(h[i]) == secret && now <= h[i].expires && ActiveSince(h, r, user, pat)
  }

  /** Which secrets are accepted, over every history with every pattern of failing store
      calls: the one stored last, while it has not expired and the PAT is active. */
  lemma {:induction false} AcceptedExactly(h: seq<Op>, secret: string, now: int)
    requires RandomParts(h)
    ensures Accepts(Run(h), secret, now) <==>
      exists i: nat, r: nat, user: Uuid, pat: Uuid :: LastRotation(h, secret, now, i, r, user, pat)
  {
    if Accepts(Run(h), secret, now) {
      var ids := ReadSecret(secret);
      var i := StoredWhen(h, ids.user, ids.pat);
      var r := ActiveWhen(h, ids.user, ids.pat);
      StoredStays(h, i, ids.user, ids.pat);
      assert LastRotation(h, secret, now, i, r, ids.user, ids.pat);
    }
    forall i: nat, r: nat, user: Uuid, pat: Uuid | LastRotation(h, secret, now, i, r, user, pat)
      ensures Accepts(Run(h), secret, now)
    {
      StoredStays(h, i, user, pat);
      ActiveStays(h, r, user, pat);
      assert h[i] in h;
      SecretRoundTrip(user, pat, h[i].randomPart);
    }
  }

  /** The PAT's last issued secret, not revoked or deleted since. */
  ghost predicate LastIssued(h: seq<Op>, secret: string, i: nat, user: Uuid, pat: Uuid) {
    && i < |h| && Issues(h, i, user, pat) && NewSecret(h[i]) == secret
    && forall j | i < j < |h| :: !Issues(h, j, user, pat) && !Revokes(h[j], user, pat) && !Deletes(h[j], user, pat)
  }

  /** No reset stored its hash and then failed to reactivate the PAT. */
  ghost predicate NoHalfReset(h: seq<Op>) {
    forall op | op in h :: op.Reset? && !op.hashFails ==> !op.reactivateFails
  }

  /** Over every history without half-failed resets, a secret is accepted if and only if it is
      the last one issued for its PAT, the PAT was not revoked or deleted since, and it has not expired. */
  lemma {:induction false} LastIssuedIsAccepted(h: seq<Op>, secret: string, now: int)
    requires RandomParts(h) && NoHalfReset(h)
    ensures Accepts(Run(h), secret, now)
       <==> exists i: nat, user: Uuid, pat: Uuid :: LastIssued(h, secret, i, user, pat) && now <= h[i].expires
  {
    AcceptedExactly(h, secret, now);
    assert forall i: nat, user: Uuid, pat: Uuid | 0 <= i < |h| && Rotates(h, i, user, pat) ::
      h[i] in h && Issues(h, i, user, pat);
    forall i: nat, r: nat, user: Uuid, pat: Uuid | LastRotation(h, secret, now, i, r, user, pat)
      ensures LastIssued(h, secret, i, user, pat) && now <= h[i].expires
    {
      assert r <= i;
    }
    forall i: nat, user: Uuid, pat: Uuid | LastIssued(h, secret, i, user, pat) && now <= h[i].expires
      ensures LastRotation(h, secret, now, i, i, user, pat)
    {
      assert StoredAt(h, i, user, pat) && ActiveSince(h, i, user, pat);
    }
  }

  /** A half-failed reset locks the owner out: the last issued secret of a live PAT is refused,
      and the secret that nobody was given is the one accepted. */
  lemma {:induction false} HalfResetLocksOut(user: Uuid, pat: Uuid, first: string, second: string, expires: int)
    requires RandomPart(first) && RandomPart(second) && first != second
    ensures var h := [Create(user, pat, first, expires, false), Reset(user, pat, second, expires, false, true)];
      && LastIssued(h, Secret(user, pat, first), 0, user, pat)
      && !Accepts(Run(h), Secret(user, pat, first), expires)
      && Accepts(Run(h), Secret(user, pat, second), expires)
  {
    var create, reset := Create(user, pat, first, expires, false), Reset(user, pat, second, expires, false, true);
    var h := [create, reset];
    assert h[..0] == [] && h[..1] == [create] && [create][..0] == [];
    assert Run([create]) == map[pat := Row(user, Hashed(Secret(user, pat, first)), false, expires)];
    assert Run(h)[pat] == Row(user, Hashed(Secret(user, pat, second)), false, expires);
    SecretRoundTrip(user, pat, first);
    SecretRoundTrip(user, pat, second);
    if Secret(user, pat, first) == Secret(user, pat, second) {
      SecretInjective(user, pat, first, user, pat, second);
      assert false;
    }
  }

  // ----- the service object

  datatype Issued = Failed | Handed(secret: string)
  datatype Verdict = Accepted | Refused | Panicked

  lemma {:induction false} RunAppend(h: seq<Op>, op: Op)
    requires RandomParts(h) && (op.Create? || op.Reset? ==> RandomPart(op.randomPart))
    ensures Run(h + [op]) == Apply(Run(h), op) && RandomParts(h + [op])
  {
    assert (h + [op])[..|h|] == h;
  }

  /** Secrets that name another PAT or another user are accepted as before. */
  ghost predicate OnlyConcerns(before: Table, after: Table, user: Uuid, pat: Uuid) {
    forall secret, now | ReadSecret(secret) != Ids(user, pat) ::
      Accepts(after, secret, now) == Accepts(before, secret, now)
  }

  /** No secret that names the PAT is accepted, ever. */
  ghost predicate Closed(t: Table, user: Uuid, pat: Uuid) {
    forall secret, now | ReadSecret(secret) == Ids(user, pat) :: !Accepts(t, secret, now)
  }

  /** Exactly one secret of the PAT is accepted, until it expires. */
  ghost predicate OpenFor(t: Table, user: Uuid, pat: Uuid, secret: string, expires: int) {
    forall s, now | ReadSecret(s) == Ids(user, pat) :: Accepts(t, s, now) <==> s == secret && now <= expires
  }

  lemma {:induction false} RowOpens(t: Table, user: Uuid, pat: Uuid, randomPart: string, expires: int)
    requires RandomPart(randomPart)
    requires pat in t && t[pat] == Row(user, Hashed(Secret(user, pat, randomPart)), false, expires)
    ensures var secret := Secret(user, pat, randomPart);
      ReadSecret(secret) == Ids(user, pat) && OpenFor(t, user, pat, secret, expires)
  {
    SecretRoundTrip(user, pat, randomPart);
  }

  /** A change of one row of the user concerns that row only. */
  lemma {:induction false} RowConcerns(before: Table, after: Table, user: Uuid, pat: Uuid)
    requires forall p | p != pat :: (p in before <==> p in after) && (p in before ==> before[p] == after[p])
    requires (pat in before ==> before[pat].user == user) && (pat in after ==> after[pat].user == user)
    ensures OnlyConcerns(before, after, user, pat)
  {
  }

  /** The call hands a secret out. */
  predicate Hands(t: Table, op: Op) {
    match op
    case Create(_, pat, _, _, saveFails) => !saveFails && pat !in t
    case Reset(user, pat, _, _, hashFails, reactivateFails) => !hashFails && !reactivateFails && Owns(t, user, pat)
    case _ => false
  }

  /** What issuing does to the secrets that are accepted. */
  lemma {:induction false} IssueEffect(t: Table, op: Op)
    requires (op.Create? || op.Reset?) && RandomPart(op.randomPart)
    ensures OnlyConcerns(t, Apply(t, op), op.user, op.pat)
    ensures Hands(t, op) ==>
      ReadSecret(NewSecret(op)) == Ids(op.user, op.pat) &&
        OpenFor(Apply(t, op), op.user, op.pat, NewSecret(op), op.expires)
  {
    if Apply(t, op) != t {
      RowConcerns(t, Apply(t, op), op.user, op.pat);
    }
    if Hands(t, op) {
      RowOpens(Apply(t, op), op.user, op.pat, op.randomPart, op.expires);
    }
  }

  /** Revoking and deleting close the PAT, and concern no other. */
  lemma {:induction false} RemovalEffect(t: Table, op: Op)
    requires (op.Revoke? || op.Delete?) && !op.fails
    ensures Closed(Apply(t, op), op.user, op.pat) && OnlyConcerns(t, Apply(t, op), op.user, op.pat)
    ensures op.Delete? ==> !Owns(Apply(t, op), op.user, op.pat)
  {
    if Owns(t, op.user, op.pat) {
      RowConcerns(t, Apply(t, op), op.user, op.pat);
    }
  }

  /** Deleting all PATs of a user closes each of them, also when the call then fails in the scope
      cache and reports an error; other users are not concerned. */
  lemma {:induction false} DeleteAllEffect(t: Table, user: Uuid, cacheFails: bool, secret: string, now: int)
    ensures Accepts(Apply(t, DeleteAll(user, false, cacheFails)), secret, now) <==>
      Accepts(t, secret, now) && ReadSecret(secret).user != user
  {
  }

  /** The table and, as a ghost, every call that was made. */
  class PatService {
    var pats: Table
    ghost var history: seq<Op>

    ghost predicate Consistent()
      reads this
    {
      pats == Run(history) && RandomParts(history)
    }

    constructor ()
      ensures Consistent() && history == []
    {
      pats, history := map[], [];
    }

    method CreatePAT(user: Uuid, pat: Uuid, randomPart: string, now: int, duration: int, saveFails: bool)
      returns (r: Issued)
      requires Consistent() && RandomPart(randomPart)
      modifies this
      ensures Consistent() && history == old(history) + [Create(user, pat, randomPart, now + duration, saveFails)]
      ensures r == if saveFails || pat in old(pats) then Failed else Handed(Secret(user, pat, randomPart))
    {
      ghost var op := Create(user, pat, randomPart, now + duration, saveFails);
      RunAppend(history, op);
      history := history + [op];
      var secret := Secret(user, pat, randomPart);
      if saveFails || pat in pats {
        return Failed;
      }
      pats := pats[pat := Row(user, Hashed(secret), false, now + duration)];
      return Handed(secret);
    }

    /** Two writes; a failure of the second leaves the first in place. */
    method ResetPATSecret(user: Uuid, pat: Uuid, randomPart: string, now: int, duration: int,
                          hashFails: bool, reactivateFails: bool)
      returns (r: Issued)
      requires Consistent() && RandomPart(randomPart)
      modifies this
      ensures Consistent()
      ensures history == old(history) + [Reset(user, pat, randomPart, now + duration, hashFails, reactivateFails)]
      ensures r == if hashFails || reactivateFails || !Owns(old(pats), user, pat) then Failed
                   else Handed(Secret(user, pat, randomPart))
    {
      ghost var op := Reset(user, pat, randomPart, now + duration, hashFails, reactivateFails);
      RunAppend(history, op);
      history := history + [op];
      var secret := Secret(user, pat, randomPart);
      if hashFails || !Owns(pats, user, pat) {
        return Failed;
      }
      pats := pats[pat := pats[pat].(hash := Hashed(secret), expires := now + duration)];
      if reactivateFails {
        return Failed;
      }
      pats := pats[pat := pats[pat].(revoked := false)];
      return Handed(secret);
    }

    /** A missing PAT is not an error: the retrieval before the update reports none. */
    method RevokePATSecret(user: Uuid, pat: Uuid, fails: bool) returns (ok: bool)
      requires Consistent()
      modifies this
      ensures Consistent() && history == old(history) + [Revoke(user, pat, fails)] && ok == !fails
    {
      RunAppend(history, Revoke(user, pat, fails));
      history := history + [Revoke(user, pat, fails)];
      if fails {
        return false;
      }
      if Owns(pats, user, pat) {
        pats := pats[pat := pats[pat].(revoked := true)];
      }
      return true;
    }

    method DeletePAT(user: Uuid, pat: Uuid, fails: bool) returns (ok: bool)
      requires Consistent()
      modifies this
      ensures Consistent() && history == old(history) + [Delete(user, pat, fails)] && ok == !fails
    {
      RunAppend(history, Delete(user, pat, fails));
      history := history + [Delete(user, pat, fails)];
      if fails {
        return false;
      }
      if Owns(pats, user, pat) {
        pats := pats - {pat};
      }
      return true;
    }

    /** The rows go first; an error of the scope cache comes after that. */
    method RemoveAllPAT(user: Uuid, fails: bool, cacheFails: bool) returns (ok: bool)
      requires Consistent()
      modifies this
      ensures Consistent() && history == old(history) + [DeleteAll(user, fails, cacheFails)]
      ensures ok <==> !fails && !cacheFails
    {
      RunAppend(history, DeleteAll(user, fails, cacheFails));
      history := history + [DeleteAll(user, fails, cacheFails)];
      if fails {
        return false;
      }
      pats := map p | p in pats && pats[p].user != user :: pats[p];
      return !cacheFails;
    }

    /** Accepts exactly the secret stored last for its PAT while it has not expired and the PAT is
        active. The bare prefix passes the shape check and is then indexed out of range. */
    method IdentifyPAT(secret: string, now: int) returns (v: Verdict)
      requires Consistent()
      ensures v == Accepted <==>
        exists i: nat, r: nat, user: Uuid, pat: Uuid :: LastRotation(history, secret, now, i, r, user, pat)
      ensures v == Panicked <==> secret == PREFIX
    {
      OnlyBarePrefixFallsThrough(secret);
      AcceptedExactly(history, secret, now);
      var reading := ReadSecret(secret);
      match reading {
        case Malformed => return Refused;
        case OutOfRange => return Panicked;
        case Ids(user, pat) =>
          if !Owns(pats, user, pat) || pats[pat].revoked || now > pats[pat].expires {
            return Refused;
          }
          return if Compare(secret, pats[pat].hash) then Accepted else Refused;
      }
    }
  }
}
