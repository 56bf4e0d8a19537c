/** Channel-client connections are kept twice, by the channels and by the clients service.
    Connecting, disconnecting and both delete paths write the two tables one after the other, and
    a call may end after any of its writes. */
module Connections {
  import opened Common

  datatype ConnType = Publish | Subscribe

  datatype Status = EnabledStatus | DisabledStatus | DeletedStatus

  datatype Entity = Entity(domain: string, status: Status)

  datatype Conn = Conn(client: string, channel: string, domain: string, kind: ConnType)

  /** The entities of the two services and the two connection tables. */
  datatype State = State(channels: map<string, Entity>, clients: map<string, Entity>,
                         channelSide: set<Conn>, clientSide: set<Conn>)

  const EMPTY := State(map[], map[], {}, {})

  // ----- the product that a call names

  /** The connection is one that a call with these lists names. */
  predicate Named(domain: string, channels: seq<string>, clients: seq<string>, kinds: seq<ConnType>, c: Conn) {
    c.domain == domain && c.channel in channels && c.client in clients && c.kind in kinds
  }

  predicate Distinct(channels: seq<string>, clients: seq<string>, kinds: seq<ConnType>) {
    NoRepeats(channels) && NoRepeats(clients) && NoRepeats(kinds)
  }

  ghost function Product(domain: string, channels: seq<string>, clients: seq<string>, kinds: seq<ConnType>): set<Conn> {
    set ch, cl, k | ch in channels && cl in clients && k in kinds :: Conn(cl, ch, domain, k)
  }

  function OfPair(domain: string, channel: string, client: string, kinds: seq<ConnType>): seq<Conn> {
    if kinds == [] then []
    else OfPair(domain, channel, client, kinds[..|kinds| - 1]) + [Conn(client, channel, domain, kinds[|kinds| - 1])]
  }

  function OfChannel(domain: string, channel: string, clients: seq<string>, kinds: seq<ConnType>): seq<Conn> {
    if clients == [] then []
    else
      OfChannel(domain, channel, clients[..|clients| - 1], kinds)
      + OfPair(domain, channel, clients[|clients| - 1], kinds)
  }

  /** The connections of a call in the order of its loops. */
  function Listing(domain: string, channels: seq<string>, clients: seq<string>, kinds: seq<ConnType>): seq<Conn> {
    if channels == [] then []
    else
      Listing(domain, channels[..|channels| - 1], clients, kinds)
      + OfChannel(domain, channels[|channels| - 1], clients, kinds)
  }

  /** The innermost of the three loops: one connection per type. */
  method AppendPair(conns: seq<Conn>, domain: string, channel: string, client: string, kinds: seq<ConnType>)
    returns (longer: seq<Conn>)
    ensures longer == conns + OfPair(domain, channel, client, kinds)
  {
    longer := conns;
    for k := 0 to |kinds|
      invariant longer == conns + OfPair(domain, channel, client, kinds[..k])
    {
      assert kinds[..k + 1][..k] == kinds[..k];
      longer := longer + [Conn(client, channel, domain, kinds[k])];
    }
    assert kinds[..|kinds|] == kinds;
  }

  method AppendChannel(conns: seq<Conn>, domain: string, channel: string, clients: seq<string>, kinds: seq<ConnType>)
    returns (longer: seq<Conn>)
    ensures longer == conns + OfChannel(domain, channel, clients, kinds)
  {
    longer := conns;
    for j := 0 to |clients|
      invariant longer == conns + OfChannel(domain, channel, clients[..j], kinds)
    {
      assert clients[..j + 1][..j] == clients[..j];
      longer := AppendPair(longer, domain, channel, clients[j], kinds);
    }
    assert clients[..|clients|] == clients;
  }

  /** The triple loop that lists the connections of a call. */
  method ListConnections(domain: string, channels: seq<string>, clients: seq<string>, kinds: seq<ConnType>)
    returns (conns: seq<Conn>)
    ensures conns == Listing(domain, channels, clients, kinds)
    ensures Elements(conns) == Product(domain, channels, clients, kinds)
  {
    conns := [];
    for i := 0 to |channels|
      invariant conns == Listing(domain, channels[..i], clients, kinds)
    {
      assert channels[..i + 1][..i] == channels[..i];
      conns := AppendChannel(conns, domain, channels[i], clients, kinds);
    }
    assert channels[..|channels|] == channels;
    Listed(domain, channels, clients, kinds);
  }

  lemma {:induction false} PairListed(domain: string, channel: string, client: string, kinds: seq<ConnType>)
    ensures forall c :: c in OfPair(domain, channel, client, kinds) <==> Named(domain, [channel], [client], kinds, c)
    ensures NoRepeats(OfPair(domain, channel, client, kinds)) <==> NoRepeats(kinds)
  {
    if kinds != [] {
      var init, last := kinds[..|kinds| - 1], kinds[|kinds| - 1];
      var a, c := OfPair(domain, channel, client, init), Conn(client, channel, domain, last);
      PairListed(domain, channel, client, init);
      NoRepeatsLast(kinds);
      NoRepeatsConcat(a, [c]);
      assert kinds == init + [last];
      assert last in init <==> c in a;
    }
  }

  lemma {:induction false} ChannelListed(domain: string, channel: string, clients: seq<string>, kinds: seq<ConnType>)
    ensures forall c :: c in OfChannel(domain, channel, clients, kinds) <==> Named(domain, [channel], clients, kinds, c)
    ensures clients != [] && kinds != [] ==>
      (NoRepeats(OfChannel(domain, channel, clients, kinds)) <==> NoRepeats(clients) && NoRepeats(kinds))
  {
    if clients != [] {
      var init, last := clients[..|clients| - 1], clients[|clients| - 1];
      var a, b := OfChannel(domain, channel, init, kinds), OfPair(domain, channel, last, kinds);
      ChannelListed(domain, channel, init, kinds);
      PairListed(domain, channel, last, kinds);
      NoRepeatsLast(clients);
      NoRepeatsConcat(a, b);
      assert clients == init + [last];
      if kinds != [] {
        var c := Conn(last, channel, domain, kinds[0]);
        assert (last in init <==> c in a) && c in b;
      }
    }
  }

  /** The listing holds exactly the named connections … */
  lemma {:induction false} Listed(domain: string, channels: seq<string>, clients: seq<string>, kinds: seq<ConnType>)
    ensures forall c :: c in Listing(domain, channels, clients, kinds) <==> Named(domain, channels, clients, kinds, c)
  {
    if channels != [] {
      var init, last := channels[..|channels| - 1], channels[|channels| - 1];
      Listed(domain, init, clients, kinds);
      ChannelListed(domain, last, clients, kinds);
      assert channels == init + [last];
    }
  }

  /** … and repeats one exactly if one of the lists has a repeat. */
  lemma {:induction false} ListedOnce(domain: string, channels: seq<string>, clients: seq<string>, kinds: seq<ConnType>)
    requires channels != [] && clients != [] && kinds != []
    ensures NoRepeats(Listing(domain, channels, clients, kinds)) <==> Distinct(channels, clients, kinds)
  {
    var init, last := channels[..|channels| - 1], channels[|channels| - 1];
    var a, b := Listing(domain, init, clients, kinds), OfChannel(domain, last, clients, kinds);
    if init != [] {
      ListedOnce(domain, init, clients, kinds);
    }
    NoRepeatsLast(channels);
    NoRepeatsConcat(a, b);
    ChannelListed(domain, last, clients, kinds);
    assert last in init <==> exists c | c in a :: c in b by {
      Listed(domain, init, clients, kinds);
      var c := Conn(clients[0], last, domain, kinds[0]);
      assert c in b && (c in a <==> last in init);
    }
  }

  // ----- the calls, cut off after any of their writes

  datatype Op =
    | CreateChannel(id: string, entity: Entity)
    | CreateClient(id: string, entity: Entity)
    | Connect(domain: string, channels: seq<string>, clients: seq<string>, kinds: seq<ConnType>)
    | Disconnect(domain: string, channels: seq<string>, clients: seq<string>, kinds: seq<ConnType>)
    | RemoveChannel(id: string)
    | DeleteClient(id: string)

  predicate InDomain(entities: map<string, Entity>, ids: seq<string>, domain: string) {
    forall id | id in ids :: id in entities && entities[id].domain == domain
  }

  predicate AllEnabled(entities: map<string, Entity>, ids: seq<string>) {
    forall id | id in ids :: id in entities && entities[id].status == EnabledStatus
  }

  /** What makes a `Connect` reach its writes: enabled endpoints of the domain, each named once,
      and no connection of the product in either table. */
  ghost predicate Connectable(s: State, op: Op)
    requires op.Connect?
  {
    && InDomain(s.channels, op.channels, op.domain) && AllEnabled(s.channels, op.channels)
    && InDomain(s.clients, op.clients, op.domain) && AllEnabled(s.clients, op.clients)
    && op.channels != [] && op.clients != [] && op.kinds != [] && Distinct(op.channels, op.clients, op.kinds)
    && Product(op.domain, op.channels, op.clients, op.kinds) !! s.channelSide + s.clientSide
  }

  ghost predicate Disconnectable(s: State, op: Op)
    requires op.Disconnect?
  {
    InDomain(s.channels, op.channels, op.domain) && InDomain(s.clients, op.clients, op.domain)
  }

  predicate HasChannel(table: set<Conn>, id: string) {
    exists c | c in table :: c.channel == id
  }

  predicate HasClient(table: set<Conn>, id: string) {
    exists c | c in table :: c.client == id
  }

  function WithoutChannel(table: set<Conn>, id: string): set<Conn> {
    set c | c in table && c.channel != id
  }

  function WithoutClient(table: set<Conn>, id: string): set<Conn> {
    set c | c in table && c.client != id
  }

  function Marked(entities: map<string, Entity>, id: string): map<string, Entity>
    requires id in entities
  {
    entities[id := entities[id].(status := DeletedStatus)]
  }

  /** How many writes a call makes when none fails. A removal first cleans up in the other service,
      if its own table has connections of the entity, then marks the row, then deletes it. */
  ghost function Writes(s: State, op: Op): nat {
    match op
    case CreateChannel(id, _) => if id in s.channels then 0 else 1
    case CreateClient(id, _) => if id in s.clients then 0 else 1
    case Connect(_, _, _, _) => if Connectable(s, op) then 2 else 0
    case Disconnect(_, _, _, _) => if Disconnectable(s, op) then 2 else 0
    case RemoveChannel(id) => (if HasChannel(s.channelSide, id) then 1 else 0) + if id in s.channels then 2 else 0
    case DeleteClient(id) => (if HasClient(s.clientSide, id) then 1 else 0) + if id in s.clients then 2 else 0
  }

  ghost function ApplyRemoveChannel(s: State, id: string, done: nat): State {
    var cleanup := if HasChannel(s.channelSide, id) then 1 else 0;
    var s1 := if cleanup == 1 && done >= 1 then s.(clientSide := WithoutChannel(s.clientSide, id)) else s;
    if id !in s.channels || done <= cleanup then s1
    else if done == cleanup + 1 then s1.(channels := Marked(s.channels, id))
    else s1.(channels := s.channels - {id}, channelSide := WithoutChannel(s.channelSide, id))
  }

  ghost function ApplyDeleteClient(s: State, id: string, done: nat): State {
    var cleanup := if HasClient(s.clientSide, id) then 1 else 0;
    var s1 := if cleanup == 1 && done >= 1 then s.(channelSide := WithoutClient(s.channelSide, id)) else s;
    if id !in s.clients || done <= cleanup then s1
    else if done == cleanup + 1 then s1.(clients := Marked(s.clients, id))
    else s1.(clients := s.clients - {id}, clientSide := WithoutClient(s.clientSide, id))
  }

  /** The state after the first `done` writes of a call; the clients service is written first. */
  ghost function Apply(s: State, op: Op, done: nat): State {
    match op
    case CreateChannel(id, entity) =>
      if done == 0 || id in s.channels then s else s.(channels := s.channels[id := entity])
    case CreateClient(id, entity) =>
      if done == 0 || id in s.clients then s else s.(clients := s.clients[id := entity])
    case Connect(domain, channels, clients, kinds) =>
      var added := Product(domain, channels, clients, kinds);
      if done == 0 || !Connectable(s, op) then s
      else
        var s1 := s.(clientSide := s.clientSide + added);
        if done == 1 then s1 else s1.(channelSide := s.channelSide + added)
    case Disconnect(domain, channels, clients, kinds) =>
      var removed := Product(domain, channels, clients, kinds);
      if done == 0 || !Disconnectable(s, op) then s
      else
        var s1 := s.(clientSide := s.clientSide - removed);
        if done == 1 then s1 else s1.(channelSide := s.channelSide - removed)
    case RemoveChannel(id) => ApplyRemoveChannel(s, id, done)
    case DeleteClient(id) => ApplyDeleteClient(s, id, done)
  }

  ghost function Whole(s: State, op: Op): State {
    Apply(s, op, Writes(s, op))
  }

  // ----- what holds in every state

  /** A foreign key: the entity exists in that domain. */
  predicate Refers(entities: map<string, Entity>, id: string, domain: string) {
    id in entities && entities[id].domain == domain
  }

  /** The foreign keys of the two tables. */
  ghost predicate WellKeyed(s: State) {
    && (forall c | c in s.channelSide :: Refers(s.channels, c.channel, c.domain))
    && (forall c | c in s.clientSide :: Refers(s.clients, c.client, c.domain))
  }

  /** The tables are equal; so every connection joins a channel and a client of its domain. */
  ghost predicate Inv(s: State) {
    s.channelSide == s.clientSide && WellKeyed(s)
  }

  lemma StepKeepsWellKeyed(s: State, op: Op, done: nat)
    requires WellKeyed(s)
    ensures WellKeyed(Apply(s, op, done))
  {}

  /** The connections that a call is about to write or remove. */
  ghost predicate Touches(s: State, op: Op) {
    match op
    case CreateChannel(_, _) => false
    case CreateClient(_, _) => false
    case Connect(_, _, _, _) => true
    case Disconnect(domain, channels, clients, kinds) =>
      exists c | c in s.clientSide :: Named(domain, channels, clients, kinds, c)
    case RemoveChannel(id) => HasChannel(s.channelSide, id)
    case DeleteClient(id) => HasClient(s.clientSide, id)
  }

  /** A call that has written one table and not the other. */
  ghost predicate Halfway(s: State, op: Op, done: nat) {
    0 < done < Writes(s, op) && Touches(s, op)
  }

  /** From equal tables, a call cut off after any number of writes leaves them equal if and only
      if it is not halfway. */
  lemma {:induction false} StepExact(s: State, op: Op, done: nat)
    requires Inv(s)
    ensures Inv(Apply(s, op, done)) <==> !Halfway(s, op, done)
  {
    StepKeepsWellKeyed(s, op, done);
    var s' := Apply(s, op, done);
    match op
    case Connect(domain, channels, clients, kinds) =>
      if Connectable(s, op) {
        var c := Conn(clients[0], channels[0], domain, kinds[0]);
        assert c in Product(domain, channels, clients, kinds) && c !in s.channelSide;
      }
    case Disconnect(domain, channels, clients, kinds) =>
      if Halfway(s, op, done) {
        var c :| c in s.clientSide && Named(domain, channels, clients, kinds, c);
        assert c in s'.channelSide && c !in s'.clientSide;
      }
    case _ =>
  }

  datatype Call = Call(op: Op, done: nat)

  ghost function Run(s: State, calls: seq<Call>): State
    decreases calls
  {
    if calls == [] then s else Run(Apply(s, calls[0].op, calls[0].done), calls[1..])
  }

  /** Every pair of writes that was started is completed. */
  ghost predicate CompletedRun(s: State, calls: seq<Call>)
    decreases calls
  {
    calls != [] ==>
      !Halfway(s, calls[0].op, calls[0].done) && CompletedRun(Apply(s, calls[0].op, calls[0].done), calls[1..])
  }

  /** Over every run in which started pairs are completed, the two tables are equal and every
      connection joins a channel and a client of its own domain. */
  lemma {:induction false} TablesAgree(s: State, calls: seq<Call>)
    requires Inv(s) && CompletedRun(s, calls)
    ensures Inv(Run(s, calls))
    decreases calls
  {
    if calls != [] {
      StepExact(s, calls[0].op, calls[0].done);
      TablesAgree(Apply(s, calls[0].op, calls[0].done), calls[1..]);
    }
  }

  // ----- what a whole call does

  /** The entities and the connections other than these are as before. */
  ghost predicate OtherwiseSame(s: State, s': State, touched: Conn -> bool) {
    && s'.channels == s.channels && s'.clients == s.clients
    && (forall c | !touched(c) :: c in s'.channelSide <==> c in s.channelSide)
    && (forall c | !touched(c) :: c in s'.clientSide <==> c in s.clientSide)
  }

  /** A connect that goes through puts exactly the product into both tables. */
  lemma {:induction false} ConnectEffect(s: State, domain: string, channels: seq<string>, clients: seq<string>,
                                         kinds: seq<ConnType>)
    requires Connectable(s, Connect(domain, channels, clients, kinds))
    ensures var s' := Whole(s, Connect(domain, channels, clients, kinds));
      && OtherwiseSame(s, s', c => Named(domain, channels, clients, kinds, c))
      && forall ch, cl, k | ch in channels && cl in clients && k in kinds ::
           Conn(cl, ch, domain, k) in s'.channelSide && Conn(cl, ch, domain, k) in s'.clientSide
  {
  }

  /** Whatever call, cut off after whatever write: a connection that is new in a table joins an
      enabled channel and an enabled client of its domain. */
  lemma {:induction false} NewConnectionsAreEnabled(s: State, op: Op, done: nat, c: Conn)
    requires var s' := Apply(s, op, done);
      (c in s'.channelSide && c !in s.channelSide) || (c in s'.clientSide && c !in s.clientSide)
    ensures c.channel in s.channels && s.channels[c.channel] == Entity(c.domain, EnabledStatus)
    ensures c.client in s.clients && s.clients[c.client] == Entity(c.domain, EnabledStatus)
  {
  }

  /** A removal that ends after its mark leaves an entity that nothing can be connected to. */
  lemma {:induction false} MarkedIsRefused(s: State, id: string, op: Op)
    requires op.Connect?
    ensures id in s.channels && id in op.channels ==>
      Writes(Apply(s, RemoveChannel(id), if HasChannel(s.channelSide, id) then 2 else 1), op) == 0
    ensures id in s.clients && id in op.clients ==>
      Writes(Apply(s, DeleteClient(id), if HasClient(s.clientSide, id) then 2 else 1), op) == 0
  {
  }

  /** A disconnect takes exactly the product out of both tables if all its channels and clients
      exist in the domain, enabled or not; otherwise it changes nothing. */
  lemma {:induction false} DisconnectEffect(s: State, domain: string, channels: seq<string>, clients: seq<string>,
                                            kinds: seq<ConnType>)
    ensures var s' := Whole(s, Disconnect(domain, channels, clients, kinds));
      if (forall ch | ch in channels :: Refers(s.channels, ch, domain))
        && (forall cl | cl in clients :: Refers(s.clients, cl, domain))
      then
        && OtherwiseSame(s, s', c => Named(domain, channels, clients, kinds, c))
        && forall ch, cl, k | ch in channels && cl in clients && k in kinds ::
             Conn(cl, ch, domain, k) !in s'.channelSide && Conn(cl, ch, domain, k) !in s'.clientSide
      else s' == s
  {
  }

  /** A removed channel is gone, and from equal tables so are exactly its connections. */
  lemma {:induction false} RemoveChannelEffect(s: State, id: string)
    requires Inv(s) && id in s.channels
    ensures var s' := Whole(s, RemoveChannel(id));
      && s'.channels == s.channels - {id} && s'.clients == s.clients && s'.channelSide == s'.clientSide
      && forall c :: c in s'.channelSide <==> c in s.channelSide && c.channel != id
  {
  }

  lemma {:induction false} DeleteClientEffect(s: State, id: string)
    requires Inv(s) && id in s.clients
    ensures var s' := Whole(s, DeleteClient(id));
      && s'.clients == s.clients - {id} && s'.channels == s.channels && s'.channelSide == s'.clientSide
      && forall c :: c in s'.channelSide <==> c in s.channelSide && c.client != id
  {
  }

  /** A new channel or client is there as given, and has no connections yet. */
  lemma {:induction false} CreateEffect(s: State, id: string, entity: Entity)
    requires Inv(s)
    ensures id !in s.channels ==>
      var s' := Whole(s, CreateChannel(id, entity));
      s' == s.(channels := s.channels[id := entity]) && !HasChannel(s'.channelSide, id)
    ensures id !in s.clients ==>
      var s' := Whole(s, CreateClient(id, entity));
      s' == s.(clients := s.clients[id := entity]) && !HasClient(s'.clientSide, id)
  {
  }

  // ----- repairing a halfway call

  /** Repeating a cut-off call gives what the whole call would have given, unless it is a
      `Connect` that has written the first table: that one is refused. */
  lemma {:induction false} RetryExact(s: State, op: Op, done: nat)
    requires Inv(s)
    ensures Whole(Apply(s, op, done), op) == Whole(s, op) <==> !(op.Connect? && Halfway(s, op, done))
  {
    match op
    case Connect(_, _, _, _) => RetryConnect(s, op, done);
    case RemoveChannel(id) => RetryRemoveChannel(s, id, done);
    case DeleteClient(id) => RetryDeleteClient(s, id, done);
    case _ =>
  }

  lemma {:induction false} RetryConnect(s: State, op: Op, done: nat)
    requires Inv(s) && op.Connect?
    ensures Whole(Apply(s, op, done), op) == Whole(s, op) <==> !Halfway(s, op, done)
  {
    if done > 0 && Connectable(s, op) {
      var c := Conn(op.clients[0], op.channels[0], op.domain, op.kinds[0]);
      var s1 := Apply(s, op, done);
      assert c in Product(op.domain, op.channels, op.clients, op.kinds) && c in s1.clientSide;
      assert !Connectable(s1, op);
      assert c !in s.channelSide && c in Whole(s, op).channelSide;
    }
  }

  lemma {:induction false} RetryRemoveChannel(s: State, id: string, done: nat)
    requires Inv(s)
    ensures Whole(Apply(s, RemoveChannel(id), done), RemoveChannel(id)) == Whole(s, RemoveChannel(id))
  {
    var op := RemoveChannel(id);
    var s1 := Apply(s, op, done);
    if s1 != s && id in s1.channels {
      assert s1.channelSide == s.channelSide;
      assert WithoutChannel(s1.clientSide, id) == WithoutChannel(s.clientSide, id);
      assert s1.channels - {id} == s.channels - {id};
    }
  }

  lemma {:induction false} RetryDeleteClient(s: State, id: string, done: nat)
    requires Inv(s)
    ensures Whole(Apply(s, DeleteClient(id), done), DeleteClient(id)) == Whole(s, DeleteClient(id))
  {
    var op := DeleteClient(id);
    var s1 := Apply(s, op, done);
    if s1 != s && id in s1.clients {
      assert s1.clientSide == s.clientSide;
      assert WithoutClient(s1.channelSide, id) == WithoutClient(s.channelSide, id);
      assert s1.clients - {id} == s.clients - {id};
    }
  }

  /** The call names or removes an end of the connection. */
  predicate Clears(op: Op, c: Conn) {
    match op
    case Disconnect(domain, channels, clients, kinds) => Named(domain, channels, clients, kinds, c)
    case RemoveChannel(id) => id == c.channel
    case DeleteClient(id) => id == c.client
    case _ => false
  }

  /** A connection that only the clients service has stays so, and no `Connect` that names it ever
      goes through, in every run until it is disconnected or one of its ends is removed. */
  lemma {:induction false} HalfConnectedBlocks(s: State, calls: seq<Call>, c: Conn, op: Op)
    requires c in s.clientSide && c !in s.channelSide
    requires forall call | call in calls :: !Clears(call.op, c)
    requires op.Connect? && Named(op.domain, op.channels, op.clients, op.kinds, c)
    ensures c in Run(s, calls).clientSide && c !in Run(s, calls).channelSide
    ensures Writes(Run(s, calls), op) == 0
    decreases calls
  {
    assert c in Product(op.domain, op.channels, op.clients, op.kinds);
    if calls != [] {
      assert calls[0] in calls;
      assert forall call | call in calls[1..] :: call in calls;
      HalfConnectedBlocks(Apply(s, calls[0].op, calls[0].done), calls[1..], c, op);
    }
  }

  /** Disconnecting makes the tables equal again if and only if it names every connection in which
      they differ, whatever cut-off calls led there. */
  lemma {:induction false} RepairExact(s: State, op: Op)
    requires WellKeyed(s) && op.Disconnect? && Disconnectable(s, op)
    ensures Inv(Whole(s, op)) <==>
      forall c | (c in s.channelSide) != (c in s.clientSide) :: Named(op.domain, op.channels, op.clients, op.kinds, c)
  {
    var s' := Whole(s, op);
    StepKeepsWellKeyed(s, op, 2);
    var named := Product(op.domain, op.channels, op.clients, op.kinds);
    assert s'.channelSide == s.channelSide - named && s'.clientSide == s.clientSide - named;
    assert forall c :: c in named <==> Named(op.domain, op.channels, op.clients, op.kinds, c);
    if Inv(s') {
      forall c | (c in s.channelSide) != (c in s.clientSide)
        ensures Named(op.domain, op.channels, op.clients, op.kinds, c)
      {
        assert (c in s'.channelSide) == (c in s'.clientSide);
      }
    }
  }

  /** Disconnecting what was just connected restores both tables, and so does disconnecting what
      was connected halfway. */
  lemma {:induction false} DisconnectUndoesConnect(s: State, op: Op, done: nat)
    requires Inv(s) && op.Connect? && Connectable(s, op)
    ensures Whole(Apply(s, op, done), Disconnect(op.domain, op.channels, op.clients, op.kinds)) == s
  {
    var s1 := Apply(s, op, done);
    var s2 := Whole(s1, Disconnect(op.domain, op.channels, op.clients, op.kinds));
    assert s2.channelSide == s.channelSide && s2.clientSide == s.clientSide;
  }

  // ----- the guards of the two delete paths

  /** Removing a channel leaves a row of it in the other table if and only if the guard's table has
      none and the other one has. */
  lemma {:induction false} ChannelGuardExact(s: State, id: string)
    requires id in s.channels
    ensures var s' := Whole(s, RemoveChannel(id));
      && !HasChannel(s'.channelSide, id)
      && (HasChannel(s'.clientSide, id) <==> !HasChannel(s.channelSide, id) && HasChannel(s.clientSide, id))
  {
  }

  lemma {:induction false} ClientGuardExact(s: State, id: string)
    requires id in s.clients
    ensures var s' := Whole(s, DeleteClient(id));
      && !HasClient(s'.clientSide, id)
      && (HasClient(s'.channelSide, id) <==> !HasClient(s.clientSide, id) && HasClient(s.channelSide, id))
  {
  }

  /** From equal tables neither guard skips a needed cleanup. */
  lemma {:induction false} GuardsSuffice(s: State, id: string)
    requires Inv(s)
    ensures id in s.channels ==> !HasChannel(Whole(s, RemoveChannel(id)).clientSide, id)
    ensures id in s.clients ==> !HasClient(Whole(s, DeleteClient(id)).channelSide, id)
  {
    if id in s.channels {
      ChannelGuardExact(s, id);
    }
    if id in s.clients {
      ClientGuardExact(s, id);
    }
  }

  /** A channel `h` and a client `c` of one domain, and a connect cut off after some writes. */
  ghost function Joined(connected: nat): State {
    var e := Entity("d", EnabledStatus);
    var connect := Connect("d", ["h"], ["c"], [Publish]);
    Run(EMPTY, [Call(CreateChannel("h", e), 1), Call(CreateClient("c", e), 1), Call(connect, connected)])
  }

  lemma {:induction false} JoinedTables(connected: nat)
    ensures var s, c, e := Joined(connected), Conn("c", "h", "d", Publish), Entity("d", EnabledStatus);
      s == State(map["h" := e], map["c" := e], if connected >= 2 then {c} else {}, if connected >= 1 then {c} else {})
  {
    var e := Entity("d", EnabledStatus);
    var x, y := Call(CreateChannel("h", e), 1), Call(CreateClient("c", e), 1);
    var z := Call(Connect("d", ["h"], ["c"], [Publish]), connected);
    assert [x, y, z][1..] == [y, z] && [y, z][1..] == [z] && [z][1..] == [];
    var s := Apply(Apply(EMPTY, x.op, 1), y.op, 1);
    assert Run(EMPTY, [x, y, z]) == Run(s, [z]) == Run(Apply(s, z.op, connected), []);
    assert Product("d", ["h"], ["c"], [Publish]) == {Conn("c", "h", "d", Publish)};
  }

  /** Repeating a connect that wrote one table changes nothing, and the other table stays empty. */
  lemma {:induction false} HalfConnectIsStuck()
    ensures var half, op := Joined(1), Connect("d", ["h"], ["c"], [Publish]);
      half.clientSide != {} && half.channelSide == {} && Whole(half, op) == half
  {
    JoinedTables(1);
    var half, op := Joined(1), Connect("d", ["h"], ["c"], [Publish]);
    HalfConnectedBlocks(half, [], Conn("c", "h", "d", Publish), op);
  }

  lemma {:induction false} ChannelGuardSkips()
    ensures var s, c := Joined(1), Conn("c", "h", "d", Publish);
      c in Whole(s, RemoveChannel("h")).clientSide && "h" !in Whole(s, RemoveChannel("h")).channels
  {
    JoinedTables(1);
    assert !HasChannel(Joined(1).channelSide, "h");
  }

  lemma {:induction false} ClientGuardSkips()
    ensures var c, half := Conn("c", "h", "d", Publish), Apply(Joined(2), Disconnect("d", ["h"], ["c"], [Publish]), 1);
      c in Whole(half, DeleteClient("c")).channelSide && "c" !in Whole(half, DeleteClient("c")).clients
  {
    JoinedTables(2);
    var half := Apply(Joined(2), Disconnect("d", ["h"], ["c"], [Publish]), 1);
    assert Product("d", ["h"], ["c"], [Publish]) == {Conn("c", "h", "d", Publish)};
    assert half.clientSide == {} && !HasClient(half.clientSide, "c");
  }

  /** After a cut-off `Connect`, removing the channel leaves the clients service with a connection
      to a channel that does not exist; after a cut-off `Disconnect`, deleting the client leaves one
      to a missing client. */
  lemma {:induction false} GuardsSkipAfterCutOff()
    ensures var s, c := Joined(1), Conn("c", "h", "d", Publish);
      c in Whole(s, RemoveChannel("h")).clientSide && "h" !in Whole(s, RemoveChannel("h")).channels
    ensures var c, half := Conn("c", "h", "d", Publish), Apply(Joined(2), Disconnect("d", ["h"], ["c"], [Publish]), 1);
      c in Whole(half, DeleteClient("c")).channelSide && "c" !in Whole(half, DeleteClient("c")).clients
  {
    ChannelGuardSkips();
    ClientGuardSkips();
  }

  // ----- the two services

  /** The validation loop over the channels or the clients of a call. */
  method CheckEntities(entities: map<string, Entity>, ids: seq<string>, domain: string, enabledOnly: bool)
    returns (ok: bool)
    ensures ok <==> InDomain(entities, ids, domain) && (enabledOnly ==> AllEnabled(entities, ids))
  {
    for i := 0 to |ids|
      invariant forall k | 0 <= k < i :: ids[k] in entities && entities[ids[k]].domain == domain
      invariant enabledOnly ==> forall k | 0 <= k < i :: entities[ids[k]].status == EnabledStatus
    {
      if ids[i] !in entities {
        return false;
      }
      if (enabledOnly && entities[ids[i]].status != EnabledStatus) || entities[ids[i]].domain != domain {
        return false;
      }
    }
    return true;
  }

  /** A multi-row insert is refused when it is empty and on a key clash, also within itself. */
  predicate Insertable(table: set<Conn>, conns: seq<Conn>) {
    conns != [] && NoRepeats(conns) && forall c | c in conns :: c !in table
  }

  class ConnectionServices {
    var channels: map<string, Entity>
    var clients: map<string, Entity>
    var channelSide: set<Conn>
    var clientSide: set<Conn>

    ghost function View(): State
      reads this
    {
      State(channels, clients, channelSide, clientSide)
    }

    constructor ()
      ensures View() == EMPTY
    {
      channels, clients, channelSide, clientSide := map[], map[], {}, {};
    }

    /** The clients service's insert; its foreign key refers to the client. */
    method AddToClientSide(conns: seq<Conn>, fails: bool) returns (ok: bool)
      modifies this`clientSide
      ensures ok <==>
        !fails && Insertable(old(clientSide), conns) && forall c | c in conns :: Refers(clients, c.client, c.domain)
      ensures clientSide == if ok then old(clientSide) + Elements(conns) else old(clientSide)
    {
      if fails || !Insertable(clientSide, conns) || exists c | c in conns :: !Refers(clients, c.client, c.domain) {
        return false;
      }
      clientSide := clientSide + Elements(conns);
      return true;
    }

    /** The channels service's insert; its foreign key refers to the channel. */
    method AddToChannelSide(conns: seq<Conn>, fails: bool) returns (ok: bool)
      modifies this`channelSide
      ensures ok <==>
        !fails && Insertable(old(channelSide), conns) && forall c | c in conns :: Refers(channels, c.channel, c.domain)
      ensures channelSide == if ok then old(channelSide) + Elements(conns) else old(channelSide)
    {
      if fails || !Insertable(channelSide, conns) || exists c | c in conns :: !Refers(channels, c.channel, c.domain) {
        return false;
      }
      channelSide := channelSide + Elements(conns);
      return true;
    }

    /** Validation, the product, the conflict check against the own table, then the two inserts;
        write number `failing` fails, if there is one. */
    method ConnectAll(domain: string, chIDs: seq<string>, clIDs: seq<string>, kinds: seq<ConnType>, failing: nat)
      returns (ok: bool)
      modifies this`channelSide, this`clientSide
      ensures View() == Apply(old(View()), Connect(domain, chIDs, clIDs, kinds), failing)
      ensures ok <==> Connectable(old(View()), Connect(domain, chIDs, clIDs, kinds)) && failing >= 2
    {
      var channelsOk := CheckEntities(channels, chIDs, domain, true);
      if !channelsOk {
        return false;
      }
      var clientsOk := CheckEntities(clients, clIDs, domain, true);
      if !clientsOk {
        return false;
      }
      var conns := ListConnections(domain, chIDs, clIDs, kinds);
      InsertableIffConnectable(View(), Connect(domain, chIDs, clIDs, kinds), conns);
      for i := 0 to |conns|
        invariant View() == old(View())
        invariant forall k | 0 <= k < i :: conns[k] !in channelSide
      {
        if conns[i] in channelSide {
          return false;
        }
      }
      var added := AddToClientSide(conns, failing == 0);
      if !added {
        return false;
      }
      ok := AddToChannelSide(conns, failing == 1);
    }

    method DisconnectAll(domain: string, chIDs: seq<string>, clIDs: seq<string>, kinds: seq<ConnType>, failing: nat)
      returns (ok: bool)
      modifies this`channelSide, this`clientSide
      ensures View() == Apply(old(View()), Disconnect(domain, chIDs, clIDs, kinds), failing)
      ensures ok <==> Disconnectable(old(View()), Disconnect(domain, chIDs, clIDs, kinds)) && failing >= 2
    {
      var channelsOk := CheckEntities(channels, chIDs, domain, false);
      if !channelsOk {
        return false;
      }
      var clientsOk := CheckEntities(clients, clIDs, domain, false);
      if !clientsOk {
        return false;
      }
      var conns := ListConnections(domain, chIDs, clIDs, kinds);
      if failing == 0 {
        return false;
      }
      clientSide := DeleteEach(clientSide, conns);
      if failing == 1 {
        return false;
      }
      channelSide := DeleteEach(channelSide, conns);
      return true;
    }

    /** The other service is told only when this one has connections of the channel; its own go
        with the row. */
    method RemoveChannelRow(id: string, failing: nat) returns (ok: bool)
      modifies this
      ensures View() == Apply(old(View()), RemoveChannel(id), failing)
      ensures ok <==> id in old(channels) && failing >= Writes(old(View()), RemoveChannel(id))
    {
      var done := 0;
      var hasConnections := exists c | c in channelSide :: c.channel == id;
      if hasConnections {
        if failing == 0 {
          return false;
        }
        clientSide := set c | c in clientSide && c.channel != id;
        done := 1;
      }
      if id !in channels || failing == done {
        return false;
      }
      channels := channels[id := channels[id].(status := DeletedStatus)];
      if failing == done + 1 {
        return false;
      }
      assert channels - {id} == old(channels) - {id};
      channels := channels - {id};
      channelSide := set c | c in channelSide && c.channel != id;
      return true;
    }

    method DeleteClientRow(id: string, failing: nat) returns (ok: bool)
      modifies this
      ensures View() == Apply(old(View()), DeleteClient(id), failing)
      ensures ok <==> id in old(clients) && failing >= Writes(old(View()), DeleteClient(id))
    {
      var done := 0;
      var hasConnections := exists c | c in clientSide :: c.client == id;
      if hasConnections {
        if failing == 0 {
          return false;
        }
        channelSide := set c | c in channelSide && c.client != id;
        done := 1;
      }
      if id !in clients || failing == done {
        return false;
      }
      clients := clients[id := clients[id].(status := DeletedStatus)];
      if failing == done + 1 {
        return false;
      }
      assert clients - {id} == old(clients) - {id};
      clients := clients - {id};
      clientSide := set c | c in clientSide && c.client != id;
      return true;
    }
  }

  /** The two inserts are accepted exactly for a connectable call. */
  lemma {:induction false} InsertableIffConnectable(s: State, op: Op, conns: seq<Conn>)
    requires op.Connect? && conns == Listing(op.domain, op.channels, op.clients, op.kinds)
    requires InDomain(s.channels, op.channels, op.domain) && AllEnabled(s.channels, op.channels)
    requires InDomain(s.clients, op.clients, op.domain) && AllEnabled(s.clients, op.clients)
    ensures Insertable(s.channelSide, conns) && Insertable(s.clientSide, conns) <==> Connectable(s, op)
    ensures forall c | c in conns :: Refers(s.channels, c.channel, c.domain) && Refers(s.clients, c.client, c.domain)
  {
    assert conns == [] || conns[0] in conns;
    Listed(op.domain, op.channels, op.clients, op.kinds);
    if op.channels != [] && op.clients != [] && op.kinds != [] {
      ListedOnce(op.domain, op.channels, op.clients, op.kinds);
      assert Conn(op.clients[0], op.channels[0], op.domain, op.kinds[0]) in conns;
    } else {
      assert forall c :: c !in conns;
    }
  }

  /** One deletion per connection. */
  method DeleteEach(table: set<Conn>, conns: seq<Conn>) returns (rest: set<Conn>)
    ensures rest == table - Elements(conns)
  {
    rest := table;
    for i := 0 to |conns|
      invariant rest == table - Elements(conns[..i])
    {
      assert conns[..i + 1] == conns[..i] + [conns[i]];
      rest := rest - {conns[i]};
    }
    assert conns[..|conns|] == conns;
  }
}
