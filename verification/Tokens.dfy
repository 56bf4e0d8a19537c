/** Refresh tokens: login, refresh and revoke over a clock, and the cache's two structures,
    a key per token with a time to live and a sorted set of token IDs per user. */
module Tokens {
  import opened Common

  // ----- the cache

  /** Clock ticks per second; scores hold whole seconds. */
  const SECOND: nat := 1000

  datatype Entry = Entry(description: string, expires: nat)

  /** `live` holds the token keys, `index` the sorted sets: token ID to score, per user. */
  datatype Cache = Cache(live: map<string, Entry>, index: map<string, map<string, nat>>)

  const EMPTY_CACHE := Cache(map[], map[])

  function IndexOf(c: Cache, user: string): map<string, nat> {
    if user in c.index then c.index[user] else map[]
  }

  function SaveActive(c: Cache, user: string, id: string, description: string, expires: nat): Cache {
    Cache(c.live[id := Entry(description, expires)],
          c.index[user := IndexOf(c, user)[id := expires / SECOND]])
  }

  predicate IsActive(c: Cache, id: string, now: nat) {
    id in c.live && now < c.live[id].expires
  }

  function RemoveActive(c: Cache, user: string, id: string): Cache {
    Cache(c.live - {id}, c.index[user := IndexOf(c, user) - {id}])
  }

  /** The first half of a listing: scores up to the current second are dropped. */
  function Purge(c: Cache, user: string, now: nat): Cache {
    var scores := IndexOf(c, user);
    c.(index := c.index[user := map id | id in scores && scores[id] > now / SECOND :: scores[id]])
  }

  datatype TokenInfo = TokenInfo(id: string, description: string)

  /** No token twice, and ordered by the scores of the sorted set. */
  ghost predicate OnceByScore(tokens: seq<TokenInfo>, scores: map<string, nat>) {
    && (forall t | t in tokens :: t.id in scores)
    && (forall i, j | 0 <= i < j < |tokens| :: tokens[i].id != tokens[j].id)
    && (forall i, j | 0 <= i < j < |tokens| :: scores[tokens[i].id] <= scores[tokens[j].id])
  }

  /** A sorted set has a member of least score. */
  lemma {:induction false} LeastScore(scores: map<string, nat>, ids: set<string>) returns (least: string)
    requires ids != {} && ids <= scores.Keys
    ensures least in ids && forall x | x in ids :: scores[least] <= scores[x]
  {
    least :| least in ids;
    if ids != {least} {
      var other := LeastScore(scores, ids - {least});
      if scores[other] < scores[least] {
        least := other;
      }
    }
  }

  /** The IDs of a sorted set in the order of their scores, and of those the live ones. */
  method ReadByScore(c: Cache, scores: map<string, nat>, now: nat) returns (tokens: seq<TokenInfo>)
    ensures forall t :: t in tokens <==>
      && t.id in scores && IsActive(c, t.id, now) && c.live[t.id].description == t.description
    ensures OnceByScore(tokens, scores)
  {
    var todo := scores.Keys;
    tokens := [];
    while todo != {}
      invariant todo <= scores.Keys
      invariant OnceByScore(tokens, scores)
      invariant forall t, x | t in tokens && x in todo :: scores[t.id] <= scores[x]
      invariant forall t :: t in tokens <==>
        && t.id in scores.Keys - todo && IsActive(c, t.id, now) && c.live[t.id].description == t.description
      decreases |todo|
    {
      ghost var least := LeastScore(scores, todo);
      assert least in todo;
      var id :| id in todo && forall x | x in todo :: scores[id] <= scores[x];
      if IsActive(c, id, now) {
        tokens := tokens + [TokenInfo(id, c.live[id].description)];
      }
      todo := todo - {id};
    }
  }

  class TokensCache {
    var cache: Cache

    constructor ()
      ensures cache == EMPTY_CACHE
    {
      cache := EMPTY_CACHE;
    }

    method Save(user: string, id: string, description: string, expires: nat)
      modifies this
      ensures cache == SaveActive(old(cache), user, id, description, expires)
    {
      cache := cache.(live := cache.live[id := Entry(description, expires)]);
      cache := cache.(index := cache.index[user := IndexOf(cache, user)[id := expires / SECOND]]);
    }

    method Remove(user: string, id: string)
      modifies this
      ensures cache == RemoveActive(old(cache), user, id)
    {
      cache := cache.(live := cache.live - {id});
      cache := cache.(index := cache.index[user := IndexOf(cache, user) - {id}]);
    }

    /** Purge, read the remaining IDs by score, and keep those whose key still exists. */
    method ListUserTokens(user: string, now: nat) returns (tokens: seq<TokenInfo>)
      modifies this
      ensures cache == Purge(old(cache), user, now)
      ensures forall t :: t in tokens <==>
        && t.id in IndexOf(cache, user) && IsActive(cache, t.id, now) && cache.live[t.id].description == t.description
      ensures OnceByScore(tokens, IndexOf(cache, user))
    {
      cache := Purge(cache, user, now);
      tokens := ReadByScore(cache, IndexOf(cache, user), now);
    }
  }

  // ----- the service

  datatype Refresh = Refresh(id: string, subject: string, expires: nat)
  datatype Access = Access(session: string, expires: nat)

  datatype Config = Config(loginDuration: nat, refreshDuration: nat)

  /** What the service and its clients hold: the cache, every refresh and access token handed
      out, and for every ID the provider gave out, the login it belongs to. */
  datatype Login = Login(subject: string, time: nat)
  datatype State = State(cache: Cache, now: nat, logins: map<string, Login>, refreshes: set<Refresh>,
                         accesses: set<Access>)

  datatype Op =
    | Tick(to: nat)
    | LogIn(subject: string, id: string, description: string, authorized: bool, saveFails: bool)
    | RefreshWith(token: Refresh, description: string, authorized: bool, saveFails: bool)
    | RevokeToken(user: string, id: string, fails: bool)
    | List(user: string)

  /** What can happen next: time does not go back, the provider gives out unused IDs, and
      only a token that was handed out passes the tokenizer. */
  predicate Enabled(s: State, op: Op) {
    match op
    case Tick(to) => s.now <= to
    case LogIn(_, id, _, _, _) => id !in s.logins
    case RefreshWith(token, _, _, _) => token in s.refreshes
    case _ => true
  }

  /** `refreshKey`: the parsed token has not expired, its ID is active, the role is confirmed
      and the new state of the token can be saved. */
  predicate RefreshSucceeds(s: State, op: Op)
    requires op.RefreshWith?
  {
    && s.now < op.token.expires && IsActive(s.cache, op.token.id, s.now)
    && op.authorized && (op.token.subject == "" || !op.saveFails)
  }

  function Step(cfg: Config, s: State, op: Op): State {
    match op
    case Tick(to) => s.(now := to)
    case LogIn(subject, id, description, authorized, saveFails) =>
      var expires := s.now + cfg.refreshDuration;
      if !op.authorized then s
      else if subject != "" && s.now < expires then
        if saveFails then s.(logins := s.logins[id := Login(subject, s.now)])
        else s.(cache := SaveActive(s.cache, subject, id, description, expires),
                logins := s.logins[id := Login(subject, s.now)],
                refreshes := s.refreshes + {Refresh(id, subject, expires)},
                accesses := s.accesses + {Access(id, s.now + cfg.loginDuration)})
      else s.(logins := s.logins[id := Login(subject, s.now)],
              refreshes := s.refreshes + {Refresh(id, subject, expires)},
              accesses := s.accesses + {Access(id, s.now + cfg.loginDuration)})
    case RefreshWith(token, description, authorized, saveFails) =>
      if !RefreshSucceeds(s, op) then s
      else s.(cache := if token.subject == "" then s.cache
                       else SaveActive(s.cache, token.subject, token.id, description, token.expires),
              refreshes := s.refreshes + {Refresh(token.id, token.subject, token.expires)},
              accesses := s.accesses + {Access(token.id, s.now + cfg.loginDuration)})
    case RevokeToken(user, id, fails) =>
      if fails then s else s.(cache := RemoveActive(s.cache, user, id))
    case List(user) => s.(cache := Purge(s.cache, user, s.now))
  }

  const INITIAL := State(EMPTY_CACHE, 0, map[], {}, {})

  function Run(cfg: Config, s: State, ops: seq<Op>): State
    decreases ops
  {
    if ops == [] then s else Run(cfg, Step(cfg, s, ops[0]), ops[1..])
  }

  ghost predicate EnabledRun(cfg: Config, s: State, ops: seq<Op>)
    decreases ops
  {
    ops != [] ==> Enabled(s, ops[0]) && EnabledRun(cfg, Step(cfg, s, ops[0]), ops[1..])
  }

  // ----- the invariant

  /** Every refresh token carries its login's subject and expiry. */
  ghost predicate TokensFollowLogins(cfg: Config, s: State) {
    forall t | t in s.refreshes ::
      t.id in s.logins && t.subject == s.logins[t.id].subject && t.expires == s.logins[t.id].time + cfg.refreshDuration
  }

  /** Every access token ends within one login duration after its session's refresh expiry. */
  ghost predicate AccessBounded(cfg: Config, s: State) {
    forall a | a in s.accesses ::
      a.session in s.logins && a.expires <= s.logins[a.session].time + cfg.refreshDuration + cfg.loginDuration
      && (cfg.refreshDuration > 0 ==> a.expires < s.logins[a.session].time + cfg.refreshDuration + cfg.loginDuration)
  }

  type Logins = map<string, Login>

  /** Token keys belong to logins and carry their expiry. */
  ghost predicate LiveFollows(cfg: Config, c: Cache, logins: Logins) {
    forall id | id in c.live :: id in logins && c.live[id].expires == logins[id].time + cfg.refreshDuration
  }

  /** A user's set holds only tokens of that user, scored by their expiry. */
  ghost predicate IndexFollows(cfg: Config, c: Cache, logins: Logins) {
    forall user, id | user in c.index && id in c.index[user] ::
      && id in logins && logins[id].subject == user
      && c.index[user][id] == (logins[id].time + cfg.refreshDuration) / SECOND
  }

  /** A live token whose last second has not begun is in its user's set. */
  ghost predicate IndexCovers(c: Cache, logins: Logins, now: nat) {
    forall id | id in c.live && id in logins && now / SECOND < c.live[id].expires / SECOND ::
      id in IndexOf(c, logins[id].subject)
  }

  ghost predicate CacheFollows(cfg: Config, c: Cache, logins: Logins, now: nat) {
    LiveFollows(cfg, c, logins) && IndexFollows(cfg, c, logins) && IndexCovers(c, logins, now)
  }

  ghost predicate Inv(cfg: Config, s: State) {
    TokensFollowLogins(cfg, s) && AccessBounded(cfg, s) && CacheFollows(cfg, s.cache, s.logins, s.now)
  }

  lemma TokensStep(cfg: Config, s: State, op: Op)
    requires Inv(cfg, s) && Enabled(s, op)
    ensures TokensFollowLogins(cfg, Step(cfg, s, op)) && AccessBounded(cfg, Step(cfg, s, op))
  {}

  /** An ID that was never given out has left no trace in the cache. */
  lemma FreshLogin(cfg: Config, c: Cache, logins: Logins, now: nat, id: string, login: Login)
    requires CacheFollows(cfg, c, logins, now) && id !in logins
    ensures CacheFollows(cfg, c, logins[id := login], now)
  {}

  lemma SaveFollows(cfg: Config, c: Cache, logins: Logins, now: nat, id: string, description: string, expires: nat)
    requires CacheFollows(cfg, c, logins, now)
    requires id in logins && expires == logins[id].time + cfg.refreshDuration
    ensures CacheFollows(cfg, SaveActive(c, logins[id].subject, id, description, expires), logins, now)
  {}

  lemma RemoveFollows(cfg: Config, c: Cache, logins: Logins, now: nat, user: string, id: string)
    requires CacheFollows(cfg, c, logins, now)
    ensures CacheFollows(cfg, RemoveActive(c, user, id), logins, now)
  {}

  lemma {:induction false} PurgeFollows(cfg: Config, c: Cache, logins: Logins, now: nat, user: string)
    requires CacheFollows(cfg, c, logins, now)
    ensures CacheFollows(cfg, Purge(c, user, now), logins, now)
  {
    var after := Purge(c, user, now);
    forall id | id in after.live && id in logins && now / SECOND < after.live[id].expires / SECOND
      ensures id in IndexOf(after, logins[id].subject)
    {
      assert id in IndexOf(c, logins[id].subject);
    }
  }

  lemma {:induction false} TickFollows(cfg: Config, c: Cache, logins: Logins, now: nat, to: nat)
    requires CacheFollows(cfg, c, logins, now) && now <= to
    ensures CacheFollows(cfg, c, logins, to)
  {
    assert now / SECOND <= to / SECOND;
  }

  lemma {:induction false} LogInFollows(cfg: Config, c: Cache, logins: Logins, now: nat, op: Op, c': Cache,
                                        logins': Logins)
    requires CacheFollows(cfg, c, logins, now) && op.LogIn? && op.id !in logins
    requires logins' == logins[op.id := Login(op.subject, now)]
    requires c' == c || c' == SaveActive(c, op.subject, op.id, op.description, now + cfg.refreshDuration)
    ensures CacheFollows(cfg, c', logins', now)
  {
    FreshLogin(cfg, c, logins, now, op.id, Login(op.subject, now));
    assert logins'[op.id] == Login(op.subject, now);
    SaveFollows(cfg, c, logins', now, op.id, op.description, now + cfg.refreshDuration);
  }

  lemma {:induction false} LogInStep(cfg: Config, s: State, op: Op)
    requires CacheFollows(cfg, s.cache, s.logins, s.now) && Enabled(s, op) && op.LogIn?
    ensures var s' := Step(cfg, s, op); CacheFollows(cfg, s'.cache, s'.logins, s'.now)
  {
    if op.authorized {
      var s' := Step(cfg, s, op);
      LogInFollows(cfg, s.cache, s.logins, s.now, op, s'.cache, s'.logins);
    }
  }

  lemma {:induction false} RefreshStep(cfg: Config, s: State, op: Op)
    requires Inv(cfg, s) && Enabled(s, op) && op.RefreshWith?
    ensures var s' := Step(cfg, s, op); CacheFollows(cfg, s'.cache, s'.logins, s'.now)
  {
    var t, s' := op.token, Step(cfg, s, op);
    assert t.id in s.logins && t.subject == s.logins[t.id].subject;
    assert s'.now == s.now && s'.logins == s.logins;
    assert s'.cache == s.cache || s'.cache == SaveActive(s.cache, t.subject, t.id, op.description, t.expires);
    SaveFollows(cfg, s.cache, s.logins, s.now, t.id, op.description, t.expires);
  }

  lemma {:induction false} CacheStep(cfg: Config, s: State, op: Op)
    requires Inv(cfg, s) && Enabled(s, op)
    ensures var s' := Step(cfg, s, op); CacheFollows(cfg, s'.cache, s'.logins, s'.now)
  {
    match op
    case Tick(to) => TickFollows(cfg, s.cache, s.logins, s.now, to);
    case LogIn(_, _, _, _, _) => LogInStep(cfg, s, op);
    case RefreshWith(_, _, _, _) => RefreshStep(cfg, s, op);
    case RevokeToken(user, id, _) => RemoveFollows(cfg, s.cache, s.logins, s.now, user, id);
    case List(user) => PurgeFollows(cfg, s.cache, s.logins, s.now, user);
  }

  lemma {:induction false} RunKeepsInv(cfg: Config, s: State, ops: seq<Op>)
    requires Inv(cfg, s) && EnabledRun(cfg, s, ops)
    ensures Inv(cfg, Run(cfg, s, ops))
    decreases ops
  {
    if ops != [] {
      TokensStep(cfg, s, ops[0]);
      CacheStep(cfg, s, ops[0]);
      RunKeepsInv(cfg, Step(cfg, s, ops[0]), ops[1..]);
    }
  }

  // ----- chains of refreshes

  /** In every reachable state a refresh token expires when its login said, and no access token
      of the session outlives login time + refresh duration + login duration. */
  lemma {:induction false} ExpiriesAreFixedAtLogin(cfg: Config, ops: seq<Op>)
    requires EnabledRun(cfg, INITIAL, ops)
    ensures var s := Run(cfg, INITIAL, ops);
      && (forall t | t in s.refreshes :: t.id in s.logins && t.expires == s.logins[t.id].time + cfg.refreshDuration)
      && (forall a | a in s.accesses :: a.session in s.logins
            && a.expires <= s.logins[a.session].time + cfg.refreshDuration + cfg.loginDuration
            && (cfg.refreshDuration > 0 ==>
                  a.expires < s.logins[a.session].time + cfg.refreshDuration + cfg.loginDuration))
  {
    RunKeepsInv(cfg, INITIAL, ops);
  }

  // ----- revocation is final

  /** An ID that was given out and has no token key never gets one again. */
  lemma {:induction false} DeadStaysDead(cfg: Config, s: State, ops: seq<Op>, id: string)
    requires EnabledRun(cfg, s, ops)
    requires id in s.logins && id !in s.cache.live
    ensures id in Run(cfg, s, ops).logins && id !in Run(cfg, s, ops).cache.live
    decreases ops
  {
    if ops != [] {
      DeadStaysDead(cfg, Step(cfg, s, ops[0]), ops[1..], id);
    }
  }

  /** Once a token ID is revoked, in every continuation of the run no refresh with it succeeds. */
  lemma {:induction false} RevokedNeverRefreshes(cfg: Config, before: seq<Op>, revoke: Op, after: seq<Op>, refresh: Op)
    requires EnabledRun(cfg, INITIAL, before)
    requires revoke.RevokeToken? && !revoke.fails && revoke.id in Run(cfg, INITIAL, before).logins
    requires EnabledRun(cfg, Step(cfg, Run(cfg, INITIAL, before), revoke), after)
    requires refresh.RefreshWith? && refresh.token.id == revoke.id
    ensures !RefreshSucceeds(Run(cfg, Step(cfg, Run(cfg, INITIAL, before), revoke), after), refresh)
  {
    DeadStaysDead(cfg, Step(cfg, Run(cfg, INITIAL, before), revoke), after, revoke.id);
  }

  /** A token key stays until its ID is revoked. */
  lemma {:induction false} LiveStaysLive(cfg: Config, s: State, ops: seq<Op>, id: string)
    requires Inv(cfg, s) && EnabledRun(cfg, s, ops)
    requires id in s.cache.live
    requires forall op | op in ops :: !(op.RevokeToken? && op.id == id && !op.fails)
    ensures id in Run(cfg, s, ops).cache.live
    decreases ops
  {
    if ops != [] {
      TokensStep(cfg, s, ops[0]);
      CacheStep(cfg, s, ops[0]);
      assert ops[0] in ops;
      LiveStaysLive(cfg, Step(cfg, s, ops[0]), ops[1..], id);
    }
  }

  ghost predicate NotRevoked(ops: seq<Op>, id: string) {
    forall op | op in ops :: !(op.RevokeToken? && op.id == id && !op.fails)
  }

  lemma {:induction false} StillRefreshes(cfg: Config, s: State, after: seq<Op>, refresh: Op)
    requires Inv(cfg, s) && EnabledRun(cfg, s, after)
    requires refresh.RefreshWith? && refresh.token in s.refreshes && refresh.token.id in s.cache.live
    requires NotRevoked(after, refresh.token.id) && refresh.authorized && !refresh.saveFails
    ensures RefreshSucceeds(Run(cfg, s, after), refresh) <==> Run(cfg, s, after).now < refresh.token.expires
  {
    RunKeepsInv(cfg, s, after);
    LiveStaysLive(cfg, s, after, refresh.token.id);
    LoginsStay(cfg, s, after, refresh.token.id);
  }

  /** A token that was handed out and saved can be refreshed until its ID is revoked or its login's
      refresh duration is over, however often it was refreshed before. */
  lemma {:induction false} UnrevokedRefreshes(cfg: Config, before: seq<Op>, after: seq<Op>, refresh: Op)
    requires EnabledRun(cfg, INITIAL, before)
    requires var s := Run(cfg, INITIAL, before);
      && refresh.RefreshWith? && refresh.token in s.refreshes && refresh.token.id in s.cache.live
      && EnabledRun(cfg, s, after) && NotRevoked(after, refresh.token.id)
    requires refresh.authorized && !refresh.saveFails
    ensures var s' := Run(cfg, Run(cfg, INITIAL, before), after);
      RefreshSucceeds(s', refresh) <==> s'.now < refresh.token.expires
  {
    RunKeepsInv(cfg, INITIAL, before);
    StillRefreshes(cfg, Run(cfg, INITIAL, before), after, refresh);
  }

  lemma {:induction false} LoginsStay(cfg: Config, s: State, ops: seq<Op>, id: string)
    requires EnabledRun(cfg, s, ops) && id in s.logins
    ensures id in Run(cfg, s, ops).logins && Run(cfg, s, ops).logins[id] == s.logins[id]
    decreases ops
  {
    if ops != [] {
      LoginsStay(cfg, Step(cfg, s, ops[0]), ops[1..], id);
    }
  }

  // ----- listings

  /** What a listing returns in every reachable state: active tokens of that user only, and all
      of them whose expiry second lies ahead. */
  ghost predicate Listed(s: State, user: string, id: string) {
    id in IndexOf(Purge(s.cache, user, s.now), user) && IsActive(s.cache, id, s.now)
  }

  lemma {:induction false} ListingIsExact(cfg: Config, ops: seq<Op>, user: string, id: string)
    requires EnabledRun(cfg, INITIAL, ops)
    ensures var s := Run(cfg, INITIAL, ops);
      Listed(s, user, id) <==>
        && IsActive(s.cache, id, s.now) && id in s.logins && s.logins[id].subject == user
        && s.now / SECOND < s.cache.live[id].expires / SECOND
  {
    RunKeepsInv(cfg, INITIAL, ops);
  }

  // ----- from login to listing

  /** A login that goes through: authorized, for a user, with a refresh token that can be saved. */
  predicate GoodLogin(cfg: Config, s: State, op: Op) {
    op.LogIn? && op.id !in s.logins && op.authorized && op.subject != "" && cfg.refreshDuration > 0 && !op.saveFails
  }

  /** Such a login hands out the two tokens and makes the refresh token active and indexed. */
  lemma {:induction false} LogInEffect(cfg: Config, s: State, op: Op)
    requires GoodLogin(cfg, s, op)
    ensures var s', expires := Step(cfg, s, op), s.now + cfg.refreshDuration;
      && s'.now == s.now && op.id in s'.logins && s'.logins[op.id] == Login(op.subject, s.now)
      && Refresh(op.id, op.subject, expires) in s'.refreshes
      && Access(op.id, s.now + cfg.loginDuration) in s'.accesses
      && op.id in s'.cache.live && s'.cache.live[op.id] == Entry(op.description, expires)
      && op.id in IndexOf(s'.cache, op.subject) && IndexOf(s'.cache, op.subject)[op.id] == expires / SECOND
    ensures var s' := Step(cfg, s, op);
      && (forall id | id != op.id :: (id in s'.cache.live <==> id in s.cache.live)
            && (id in s.cache.live ==> s'.cache.live[id] == s.cache.live[id]))
      && (forall user | user != op.subject :: IndexOf(s'.cache, user) == IndexOf(s.cache, user))
  {
  }

  /** A refresh that goes through hands out a new access token and the refresh token with the same
      ID, subject and expiry, and keeps it active; no other key changes. */
  lemma {:induction false} RefreshEffect(cfg: Config, s: State, op: Op)
    requires op.RefreshWith? && RefreshSucceeds(s, op)
    ensures var s', t := Step(cfg, s, op), op.token;
      && s'.now == s.now && s'.logins == s.logins
      && s'.refreshes == s.refreshes + {t} && s'.accesses == s.accesses + {Access(t.id, s.now + cfg.loginDuration)}
      && t.id in s'.cache.live && IsActive(s'.cache, t.id, s'.now)
      && (t.subject != "" ==> s'.cache.live[t.id] == Entry(op.description, t.expires))
      && (t.subject != "" ==> t.id in IndexOf(s'.cache, t.subject))
      && (forall id | id != t.id :: (id in s'.cache.live <==> id in s.cache.live)
            && (id in s.cache.live ==> s'.cache.live[id] == s.cache.live[id]))
  {
  }

  /** A login without a subject, or with a token that expires at once, hands out tokens and saves
      nothing; one that is refused, or whose save fails, hands out nothing. */
  lemma {:induction false} UnsavedLogin(cfg: Config, s: State, op: Op)
    requires op.LogIn? && op.id !in s.logins && !GoodLogin(cfg, s, op)
    ensures var s' := Step(cfg, s, op);
      && s'.cache == s.cache && s'.now == s.now
      && (if op.authorized && (op.subject == "" || cfg.refreshDuration == 0)
          then s'.refreshes == s.refreshes + {Refresh(op.id, op.subject, s.now + cfg.refreshDuration)}
            && s'.accesses == s.accesses + {Access(op.id, s.now + cfg.loginDuration)}
          else s'.refreshes == s.refreshes && s'.accesses == s.accesses)
  {
  }

  lemma {:induction false} LoginReady(cfg: Config, s: State, login: Op)
    requires Inv(cfg, s) && GoodLogin(cfg, s, login)
    ensures var s1, expires := Step(cfg, s, login), s.now + cfg.refreshDuration;
      && Inv(cfg, s1) && Refresh(login.id, login.subject, expires) in s1.refreshes
      && login.id in s1.logins && s1.logins[login.id] == Login(login.subject, s.now)
      && login.id in s1.cache.live && s1.cache.live[login.id] == Entry(login.description, expires)
  {
    LogInEffect(cfg, s, login);
    TokensStep(cfg, s, login);
    CacheStep(cfg, s, login);
  }

  /** From its login on, whatever happens but its revocation, the refresh token that was handed out
      refreshes if and only if the refresh duration is not over. */
  lemma {:induction false} LoginRefreshes(cfg: Config, before: seq<Op>, login: Op, after: seq<Op>, description: string)
    requires EnabledRun(cfg, INITIAL, before) && GoodLogin(cfg, Run(cfg, INITIAL, before), login)
    requires EnabledRun(cfg, Step(cfg, Run(cfg, INITIAL, before), login), after) && NotRevoked(after, login.id)
    ensures var s := Run(cfg, INITIAL, before);
      var s', expires := Run(cfg, Step(cfg, s, login), after), s.now + cfg.refreshDuration;
      RefreshSucceeds(s', RefreshWith(Refresh(login.id, login.subject, expires), description, true, false)) <==>
        s'.now < expires
  {
    var s := Run(cfg, INITIAL, before);
    RunKeepsInv(cfg, INITIAL, before);
    LoginReady(cfg, s, login);
    var token := Refresh(login.id, login.subject, s.now + cfg.refreshDuration);
    StillRefreshes(cfg, Step(cfg, s, login), after, RefreshWith(token, description, true, false));
  }

  /** The description given last: by the login, or by a refresh that went through since. */
  ghost function LatestDescription(cfg: Config, s: State, ops: seq<Op>, id: string, description: string): string
    decreases ops
  {
    if ops == [] then description
    else
      var op := ops[0];
      LatestDescription(cfg, Step(cfg, s, op), ops[1..], id,
        if op.RefreshWith? && op.token.id == id && RefreshSucceeds(s, op) then op.description else description)
  }

  lemma {:induction false} DescriptionFollows(cfg: Config, s: State, ops: seq<Op>, id: string)
    requires Inv(cfg, s) && EnabledRun(cfg, s, ops) && NotRevoked(ops, id)
    requires id in s.cache.live && id in s.logins && s.logins[id].subject != ""
    ensures id in Run(cfg, s, ops).cache.live
    ensures Run(cfg, s, ops).cache.live[id].description
         == LatestDescription(cfg, s, ops, id, s.cache.live[id].description)
    decreases ops
  {
    if ops != [] {
      TokensStep(cfg, s, ops[0]);
      CacheStep(cfg, s, ops[0]);
      assert ops[0] in ops;
      DescriptionFollows(cfg, Step(cfg, s, ops[0]), ops[1..], id);
    }
  }

  /** From its login on, whatever happens but its revocation, the token is in the user's listing if
      and only if its expiry second lies ahead, and shows the description given last. */
  lemma {:induction false} LoginIsListed(cfg: Config, before: seq<Op>, login: Op, after: seq<Op>)
    requires EnabledRun(cfg, INITIAL, before) && GoodLogin(cfg, Run(cfg, INITIAL, before), login)
    requires EnabledRun(cfg, Step(cfg, Run(cfg, INITIAL, before), login), after) && NotRevoked(after, login.id)
    ensures var s := Run(cfg, INITIAL, before);
      var s1 := Step(cfg, s, login);
      var s' := Run(cfg, s1, after);
      && (Listed(s', login.subject, login.id) <==> s'.now / SECOND < (s.now + cfg.refreshDuration) / SECOND)
      && login.id in s'.cache.live
      && s'.cache.live[login.id].description == LatestDescription(cfg, s1, after, login.id, login.description)
  {
    var s := Run(cfg, INITIAL, before);
    RunKeepsInv(cfg, INITIAL, before);
    LoginReady(cfg, s, login);
    StaysListed(cfg, Step(cfg, s, login), after, login.id);
  }

  lemma {:induction false} StaysListed(cfg: Config, s: State, after: seq<Op>, id: string)
    requires Inv(cfg, s) && EnabledRun(cfg, s, after) && NotRevoked(after, id)
    requires id in s.cache.live && id in s.logins && s.logins[id].subject != ""
    ensures var s' := Run(cfg, s, after);
      && (Listed(s', s.logins[id].subject, id) <==>
            s'.now / SECOND < (s.logins[id].time + cfg.refreshDuration) / SECOND)
      && id in s'.cache.live
      && s'.cache.live[id].description == LatestDescription(cfg, s, after, id, s.cache.live[id].description)
  {
    var s' := Run(cfg, s, after);
    DescriptionFollows(cfg, s, after, id);
    RunKeepsInv(cfg, s, after);
    LoginsStay(cfg, s, after, id);
    SecondsAhead(s'.now, s.logins[id].time + cfg.refreshDuration);
  }

  lemma SecondsAhead(now: nat, expires: nat)
    ensures now / SECOND < expires / SECOND ==> now < expires
  {}

  // ----- what the other calls change

  lemma TickEffect(cfg: Config, s: State, to: nat)
    ensures var s' := Step(cfg, s, Tick(to));
      && s'.now == to && s'.cache == s.cache && s'.logins == s.logins
      && s'.refreshes == s.refreshes && s'.accesses == s.accesses
  {}

  /** A revocation removes the key, and the ID from the named user's set; nothing else. */
  lemma {:induction false} RevokeEffect(cfg: Config, s: State, user: string, id: string)
    ensures var c' := Step(cfg, s, RevokeToken(user, id, false)).cache;
      && id !in c'.live && id !in IndexOf(c', user)
      && c'.live == s.cache.live - {id}
      && (forall x | x != id :: x in IndexOf(c', user) <==> x in IndexOf(s.cache, user))
      && (forall u | u != user :: IndexOf(c', u) == IndexOf(s.cache, u))
  {
  }

  /** A listing removes from the user's set exactly the IDs whose second has come; nothing else. */
  lemma {:induction false} ListEffect(cfg: Config, s: State, user: string)
    ensures var c' := Step(cfg, s, List(user)).cache;
      && c'.live == s.cache.live
      && (forall x :: x in IndexOf(c', user) <==>
            x in IndexOf(s.cache, user) && s.now / SECOND < IndexOf(s.cache, user)[x])
      && (forall u | u != user :: IndexOf(c', u) == IndexOf(s.cache, u))
  {
  }

  // ----- the service object

  class AuthService {
    const cfg: Config
    const tokens: TokensCache
    var now: nat
    ghost var logins: Logins
    ghost var refreshes: set<Refresh>
    ghost var accesses: set<Access>

    ghost function View(): State
      reads this, tokens
    {
      State(tokens.cache, now, logins, refreshes, accesses)
    }

    constructor (cfg: Config)
      ensures View() == INITIAL && this.cfg == cfg && fresh(tokens)
    {
      this.cfg := cfg;
      tokens := new TokensCache();
      now, logins, refreshes, accesses := 0, map[], {}, {};
    }

    /** `accessKey`: the access token, then the refresh token under a new ID, then the cache entry. */
    method AccessKey(subject: string, id: string, description: string, authorized: bool, saveFails: bool)
      returns (r: Option<(Access, Refresh)>)
      modifies this, tokens
      ensures View() == Step(cfg, old(View()), LogIn(subject, id, description, authorized, saveFails))
      ensures r.Some? <==> authorized && !(subject != "" && cfg.refreshDuration > 0 && saveFails)
      ensures r.Some? ==>
        r.value == (Access(id, now + cfg.loginDuration), Refresh(id, subject, now + cfg.refreshDuration))
      ensures r.None? ==> accesses == old(accesses) && refreshes == old(refreshes)
      ensures r.Some? && subject != "" && cfg.refreshDuration > 0 ==>
        IsActive(tokens.cache, id, now) && id in IndexOf(tokens.cache, subject)
    {
      if !authorized {
        return None;
      }
      var access := Access(id, now + cfg.loginDuration);
      var refresh := Refresh(id, subject, now + cfg.refreshDuration);
      logins := logins[id := Login(subject, now)];
      if subject != "" && refresh.expires > now {
        if saveFails {
          return None;
        }
        tokens.Save(subject, id, description, refresh.expires);
      }
      accesses, refreshes := accesses + {access}, refreshes + {refresh};
      return Some((access, refresh));
    }

    /** `refreshKey`: the new refresh token keeps the ID, the subject and the expiry of the old one. */
    method RefreshKey(token: Refresh, description: string, authorized: bool, saveFails: bool)
      returns (r: Option<(Access, Refresh)>)
      modifies this, tokens
      ensures View() == Step(cfg, old(View()), RefreshWith(token, description, authorized, saveFails))
      ensures r.Some? <==> RefreshSucceeds(old(View()), RefreshWith(token, description, authorized, saveFails))
      ensures r.Some? ==> r.value == (Access(token.id, now + cfg.loginDuration), token)
    {
      if token.expires <= now {
        return None;
      }
      var active := IsActive(tokens.cache, token.id, now);
      if !active || !authorized {
        return None;
      }
      var access := Access(token.id, now + cfg.loginDuration);
      var refresh := Refresh(token.id, token.subject, token.expires);
      if refresh.subject != "" && refresh.expires > now {
        if saveFails {
          return None;
        }
        tokens.Save(refresh.subject, refresh.id, description, refresh.expires);
      }
      accesses, refreshes := accesses + {access}, refreshes + {refresh};
      return Some((access, refresh));
    }

    method Revoke(user: string, id: string, fails: bool) returns (ok: bool)
      modifies tokens
      ensures View() == Step(cfg, old(View()), RevokeToken(user, id, fails)) && ok == !fails
    {
      if fails {
        return false;
      }
      tokens.Remove(user, id);
      return true;
    }
  }
}
