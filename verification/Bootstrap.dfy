/** Bootstrap configurations: a stored channel list and state per client, reconciled with the
    client's live connections. A live link stands for both connection types, which the service
    always connects and disconnects together. */
module Bootstrap {
  import opened Common

  datatype ConfigState = Inactive | Active

  datatype Config = Config(state: ConfigState, channels: set<string>)

  datatype Link = Link(client: string, channel: string)

  datatype State = State(configs: map<string, Config>, live: set<Link>)

  const NOTHING := State(map[], {})

  function Links(client: string, channels: set<string>): set<Link> {
    set c | c in channels :: Link(client, c)
  }

  // ----- which channels to connect and which to disconnect

  /** What is appended to the connect list: unknown channels, and known ones seen before. */
  function ToAdd(channels: set<string>, connections: seq<string>): seq<string> {
    if connections == [] then []
    else
      var init, last := connections[..|connections| - 1], connections[|connections| - 1];
      ToAdd(channels, init) + if last !in channels || last in init then [last] else []
  }

  /** `updateList`: the map of channels to disconnect shrinks while the new list is read. */
  method UpdateList(channels: set<string>, connections: seq<string>) returns (add: seq<string>, remove: seq<string>)
    ensures add == ToAdd(channels, connections)
    ensures Elements(remove) == channels - Elements(connections) && NoRepeats(remove)
    ensures |remove| == |channels - Elements(connections)|
  {
    var disconnect := channels;
    add := [];
    for i := 0 to |connections|
      invariant disconnect == channels - Elements(connections[..i])
      invariant add == ToAdd(channels, connections[..i])
    {
      var c := connections[i];
      assert connections[..i + 1] == connections[..i] + [c];
      assert connections[..i + 1][..i] == connections[..i];
      if c in disconnect {
        disconnect := disconnect - {c};
      } else {
        add := add + [c];
      }
    }
    assert connections[..|connections|] == connections;
    remove := KeysOf(disconnect);
  }

  /** On a list without repeats, exactly the new channels are connected, once each. */
  lemma {:induction false} AddsNewChannels(channels: set<string>, connections: seq<string>)
    requires NoRepeats(connections)
    ensures Elements(ToAdd(channels, connections)) == Elements(connections) - channels
    ensures NoRepeats(ToAdd(channels, connections))
  {
    if connections != [] {
      var init, last := connections[..|connections| - 1], connections[|connections| - 1];
      assert connections == init + [last];
      AddsNewChannels(channels, init);
      assert last !in Elements(init);
      assert Elements(connections) == Elements(init) + {last};
      assert Elements(ToAdd(channels, connections))
          == Elements(ToAdd(channels, init)) + if last in channels then {} else {last};
    }
  }

  ghost predicate NamedTwice(connections: seq<string>, c: string) {
    exists i, j | 0 <= i < j < |connections| :: connections[i] == c && connections[j] == c
  }

  /** A channel that is already configured is connected again exactly when it is named twice. */
  lemma {:induction false} ConnectedAgainIffRepeated(channels: set<string>, connections: seq<string>, c: string)
    requires c in channels
    ensures c in ToAdd(channels, connections) <==> NamedTwice(connections, c)
  {
    if connections != [] {
      var init, last := connections[..|connections| - 1], connections[|connections| - 1];
      assert connections == init + [last];
      ConnectedAgainIffRepeated(channels, init, c);
      if NamedTwice(init, c) {
        var i, j :| 0 <= i < j < |init| && init[i] == c && init[j] == c;
        assert connections[i] == c && connections[j] == c;
      }
      if last == c && c in init {
        var i :| 0 <= i < |init| && init[i] == c;
        assert connections[i] == c && connections[|init|] == c;
      }
    }
  }

  /** `connectionChannels`: what must be fetched before the new list can refer to it. */
  method ConnectionChannels(channels: seq<string>, existing: seq<string>, unreachable: set<string>)
    returns (ok: bool, fetched: seq<string>)
    ensures ok <==> (Elements(channels) - Elements(existing)) !! unreachable
    ensures ok ==> Elements(fetched) == Elements(channels) - Elements(existing) && NoRepeats(fetched)
  {
    var add: set<string> := {};
    for i := 0 to |channels|
      invariant add == Elements(channels[..i])
    {
      assert channels[..i + 1] == channels[..i] + [channels[i]];
      add := add + {channels[i]};
    }
    assert channels[..|channels|] == channels;
    for i := 0 to |existing|
      invariant add == Elements(channels) - Elements(existing[..i])
    {
      assert existing[..i + 1] == existing[..i] + [existing[i]];
      if existing[i] in add {
        add := add - {existing[i]};
      }
    }
    assert existing[..|existing|] == existing;
    var ids := KeysOf(add);
    fetched := [];
    for i := 0 to |ids|
      invariant fetched == ids[..i] && forall k | 0 <= k < i :: ids[k] !in unreachable
    {
      if ids[i] in unreachable {
        assert ids[i] in Elements(ids);
        return false, [];
      }
      fetched := fetched + [ids[i]];
    }
    assert forall c | c in Elements(ids) :: c !in unreachable;
    return true, fetched;
  }

  // ----- the calls, when nothing fails in them

  datatype Op =
    | Add(id: string, channels: set<string>)
    | Update(id: string, connections: seq<string>)
    | Change(id: string, target: ConfigState)
    | Remove(id: string)

  /** The repository keeps the stored list when the new one is empty. */
  function StoredList(cfg: Config, connections: seq<string>): set<string> {
    if connections == [] then cfg.channels else Elements(connections)
  }

  function Apply(s: State, op: Op): State {
    match op
    case Add(id, channels) =>
      if id in s.configs then s else s.(configs := s.configs[id := Config(Inactive, channels)])
    case Update(id, connections) =>
      if id !in s.configs then s
      else
        var cfg := s.configs[id];
        State(s.configs[id := cfg.(channels := StoredList(cfg, connections))],
              if cfg.state == Inactive then s.live
              else s.live - Links(id, cfg.channels - Elements(connections))
                          + Links(id, Elements(connections) - cfg.channels))
    case Change(id, target) =>
      if id !in s.configs || s.configs[id].state == target then s
      else
        var cfg := s.configs[id];
        State(s.configs[id := cfg.(state := target)],
              if target == Active then s.live + Links(id, cfg.channels) else s.live - Links(id, cfg.channels))
    case Remove(id) => s.(configs := s.configs - {id})
  }

  /** The live channels of a client are its list while it is active, and none while it is not. */
  ghost predicate Reconciled(s: State, id: string)
    requires id in s.configs
  {
    forall c :: Link(id, c) in s.live <==> s.configs[id].state == Active && c in s.configs[id].channels
  }

  ghost predicate Inv(s: State) {
    forall id | id in s.configs :: Reconciled(s, id)
  }

  ghost predicate Unlinked(s: State, id: string) {
    forall c :: Link(id, c) !in s.live
  }

  /** Emptying the list of an active client disconnects its channels but keeps the list, and a
      client added again may still be linked from a configuration removed while active. */
  ghost predicate Safe(s: State, op: Op) {
    match op
    case Add(id, _) => id in s.configs || Unlinked(s, id)
    case Update(id, connections) =>
      id in s.configs && s.configs[id].state == Active && connections == [] ==> s.configs[id].channels == {}
    case _ => true
  }

  lemma {:induction false} OthersUntouched(s: State, op: Op, id: string)
    requires Inv(s) && id in s.configs && id != op.id
    ensures Reconciled(Apply(s, op), id)
  {
    assert Reconciled(s, id);
  }

  lemma {:induction false} OwnConfig(s: State, op: Op)
    requires Inv(s) && op.id in Apply(s, op).configs
    ensures Reconciled(Apply(s, op), op.id) <==> Safe(s, op)
  {
    var s', id := Apply(s, op), op.id;
    if id in s.configs {
      assert Reconciled(s, id);
    }
    match op
    case Update(_, connections) =>
      var cfg := s.configs[id];
      if cfg.state == Active && connections == [] && cfg.channels != {} {
        var c :| c in cfg.channels;
        assert Link(id, c) !in s'.live && c in s'.configs[id].channels;
      } else {
        forall c ensures Link(id, c) in s'.live <==> s'.configs[id].state == Active && c in s'.configs[id].channels {
          assert Link(id, c) in s.live <==> cfg.state == Active && c in cfg.channels;
        }
      }
    case _ =>
  }

  /** From a reconciled state, a call that does not fail keeps every client reconciled if and only
      if it is safe. */
  lemma {:induction false} StepExact(s: State, op: Op)
    requires Inv(s)
    ensures Inv(Apply(s, op)) <==> Safe(s, op)
  {
    var s' := Apply(s, op);
    forall id | id in s'.configs && id != op.id ensures Reconciled(s', id) {
      OthersUntouched(s, op, id);
    }
    if op.id in s'.configs {
      OwnConfig(s, op);
    }
  }

  function Run(s: State, ops: seq<Op>): State
    decreases ops
  {
    if ops == [] then s else Run(Apply(s, ops[0]), ops[1..])
  }

  ghost predicate SafeRun(s: State, ops: seq<Op>)
    decreases ops
  {
    ops != [] ==> Safe(s, ops[0]) && SafeRun(Apply(s, ops[0]), ops[1..])
  }

  /** Over every safe run, every active client is connected to exactly its channel list and every
      inactive one to nothing. */
  lemma {:induction false} RunsReconcile(s: State, ops: seq<Op>)
    requires Inv(s) && SafeRun(s, ops)
    ensures Inv(Run(s, ops))
    decreases ops
  {
    if ops != [] {
      StepExact(s, ops[0]);
      RunsReconcile(Apply(s, ops[0]), ops[1..]);
    }
  }

  // ----- what a call that does not fail does

  /** The configurations and connections of all other clients are as before. */
  ghost predicate OthersSame(s: State, s': State, id: string) {
    && s'.configs - {id} == s.configs - {id}
    && (forall l: Link | l.client != id :: l in s'.live <==> l in s.live)
  }

  lemma {:induction false} AddEffect(s: State, id: string, channels: set<string>)
    requires id !in s.configs
    ensures var s' := Apply(s, Add(id, channels));
      && id in s'.configs && s'.configs[id] == Config(Inactive, channels) && s'.live == s.live && OthersSame(s, s', id)
  {
  }

  /** A new list is stored and, for an active client, its live connections become exactly that list. */
  lemma {:induction false} UpdateEffect(s: State, id: string, connections: seq<string>)
    requires Inv(s) && id in s.configs && connections != []
    ensures var s' := Apply(s, Update(id, connections));
      && id in s'.configs && s'.configs[id].state == s.configs[id].state && OthersSame(s, s', id)
      && (forall c :: c in s'.configs[id].channels <==> c in connections)
      && (forall c :: Link(id, c) in s'.live <==> s.configs[id].state == Active && c in connections)
  {
    assert Reconciled(s, id);
    var s' := Apply(s, Update(id, connections));
    forall c ensures Link(id, c) in s'.live <==> s.configs[id].state == Active && c in connections {
      assert Link(id, c) in s.live <==> s.configs[id].state == Active && c in s.configs[id].channels;
    }
  }

  /** A new state is stored, and the live connections become the list or none. */
  lemma {:induction false} ChangeEffect(s: State, id: string, target: ConfigState)
    requires Inv(s) && id in s.configs
    ensures var s' := Apply(s, Change(id, target));
      && id in s'.configs && s'.configs[id] == Config(target, s.configs[id].channels) && OthersSame(s, s', id)
      && (forall c :: Link(id, c) in s'.live <==> target == Active && c in s.configs[id].channels)
  {
    assert Reconciled(s, id);
  }

  lemma {:induction false} RemoveEffect(s: State, id: string)
    ensures var s' := Apply(s, Remove(id)); id !in s'.configs && s'.live == s.live && OthersSame(s, s', id)
  {
  }

  // ----- state changes that fail halfway

  /** An attempt that got as far as `reached` and did not write the new state. */
  function Attempt(s: State, id: string, target: ConfigState, reached: set<string>): State {
    s.(live := if target == Active then s.live + Links(id, reached) else s.live - Links(id, reached))
  }

  lemma {:induction false} AttemptMore(s: State, id: string, target: ConfigState, reached: set<string>, c: string)
    ensures var before, after := Attempt(s, id, target, reached).live, Attempt(s, id, target, reached + {c}).live;
      after == if target == Active then before + {Link(id, c)} else before - {Link(id, c)}
  {
    assert Links(id, reached + {c}) == Links(id, reached) + {Link(id, c)};
  }

  function Attempts(s: State, id: string, target: ConfigState, attempts: seq<set<string>>): State
    decreases attempts
  {
    if attempts == [] then s else Attempts(Attempt(s, id, target, attempts[0]), id, target, attempts[1..])
  }

  /** Any number of failed attempts and then a success end where one success would have. */
  lemma {:induction false} AttemptsConverge(s: State, id: string, target: ConfigState, attempts: seq<set<string>>)
    requires id in s.configs && s.configs[id].state != target
    requires forall reached | reached in attempts :: reached <= s.configs[id].channels
    ensures Apply(Attempts(s, id, target, attempts), Change(id, target)) == Apply(s, Change(id, target))
    decreases attempts
  {
    if attempts != [] {
      var s1 := Attempt(s, id, target, attempts[0]);
      assert attempts[0] <= s.configs[id].channels;
      assert forall reached | reached in attempts[1..] :: reached in attempts;
      AttemptsConverge(s1, id, target, attempts[1..]);
      assert Apply(s1, Change(id, target)).live == Apply(s, Change(id, target)).live;
    }
  }

  /** But a failed attempt cannot be taken back: asking for the state the configuration still has
      does nothing, and the client is reconciled only if the attempt reached no channel. */
  lemma {:induction false} AbandonedAttempt(s: State, id: string, target: ConfigState, reached: set<string>)
    requires Inv(s) && id in s.configs && s.configs[id].state != target && reached <= s.configs[id].channels
    ensures var s1 := Attempt(s, id, target, reached);
      Inv(Apply(s1, Change(id, s.configs[id].state))) <==> reached == {}
  {
    var s1 := Attempt(s, id, target, reached);
    assert Apply(s1, Change(id, s.configs[id].state)) == s1;
    if reached != {} {
      var c :| c in reached;
      assert Reconciled(s, id);
      assert Link(id, c) in s1.live <==> target == Active;
      assert !Reconciled(s1, id);
    } else {
      assert s1.live == s.live;
    }
  }

  /** An activation that reached one channel, taken back by asking for the old state. */
  lemma {:induction false} AbandonedActivation()
    ensures var s := Run(NOTHING, [Add("c", {"x"})]);
      var s1 := Attempt(s, "c", Active, {"x"});
      Inv(s) && s1.configs["c"].state == Inactive && !Inv(Apply(s1, Change("c", Inactive)))
  {
    var add := Add("c", {"x"});
    assert [add][1..] == [];
    var s := Apply(NOTHING, add);
    assert Run(NOTHING, [add]) == Run(s, []) == s;
    StepExact(NOTHING, add);
    AbandonedAttempt(s, "c", Active, {"x"});
  }

  lemma {:induction false} ActivatedClient(after: seq<Op>)
    ensures var s := State(map["c" := Config(Active, {"x"})], {Link("c", "x")});
      Run(NOTHING, [Add("c", {"x"}), Change("c", Active)] + after) == Run(s, after) && Inv(s)
  {
    var add, change := Add("c", {"x"}), Change("c", Active);
    var ops := [add, change] + after;
    assert ops[1..] == [change] + after && ([change] + after)[1..] == after;
    var s1 := Apply(NOTHING, add);
    assert Links("c", {"x"}) == {Link("c", "x")};
    var s := Apply(s1, change);
    assert Run(NOTHING, ops) == Run(s1, [change] + after) == Run(s, after);
    StepExact(NOTHING, add);
    StepExact(s1, change);
    assert s == State(map["c" := Config(Active, {"x"})], {Link("c", "x")});
  }

  /** Emptying the list of an active client, and adding a client again that was removed while
      active, both leave live connections that differ from the configuration. */
  lemma {:induction false} EmptiedAndReaddedDiffer()
    ensures !Inv(Run(NOTHING, [Add("c", {"x"}), Change("c", Active)] + [Update("c", [])]))
    ensures !Inv(Run(NOTHING, [Add("c", {"x"}), Change("c", Active)] + [Remove("c"), Add("c", {})]))
  {
    var s := State(map["c" := Config(Active, {"x"})], {Link("c", "x")});
    var update, remove, add := Update("c", []), Remove("c"), Add("c", {});
    ActivatedClient([update]);
    ActivatedClient([remove, add]);
    assert [update][1..] == [] && [remove, add][1..] == [add] && [add][1..] == [];
    StepExact(s, update);
    assert Run(s, [update]) == Run(Apply(s, update), []) == Apply(s, update);
    var s1 := Apply(s, remove);
    StepExact(s, remove);
    assert !Unlinked(s1, "c") by {
      assert Link("c", "x") in s1.live;
    }
    StepExact(s1, add);
    assert Run(s, [remove, add]) == Run(s1, [add]) == Run(Apply(s1, add), []);
  }

  // ----- list updates that fail halfway

  function ToDrop(cfg: Config, connections: seq<string>): set<string> {
    cfg.channels - Elements(connections)
  }

  /** No channel is both connected and disconnected by an update. */
  lemma {:induction false} KeptOrNew(cfg: Config, connections: seq<string>)
    ensures forall c | c in ToAdd(cfg.channels, connections) :: c !in ToDrop(cfg, connections)
  {
    forall c | c in ToAdd(cfg.channels, connections) ensures c in connections {
      AddedIsNamed(cfg.channels, connections, c);
    }
  }

  lemma {:induction false} AddedIsNamed(channels: set<string>, connections: seq<string>, c: string)
    requires c in ToAdd(channels, connections)
    ensures c in connections
  {
    var init, last := connections[..|connections| - 1], connections[|connections| - 1];
    if c in ToAdd(channels, init) {
      AddedIsNamed(channels, init, c);
    }
  }

  /** What goes through when no store call fails: a list without repeats, none of whose new
      channels is connected already. */
  predicate CanUpdate(s: State, id: string, connections: seq<string>) {
    && id in s.configs && NoRepeats(connections)
    && (s.configs[id].state == Active ==>
          forall c | c in ToAdd(s.configs[id].channels, connections) :: Link(id, c) !in s.live)
  }

  /** An update that disconnected some channels, then connected some, and did not store the list. */
  function UpdateCut(s: State, id: string, dropped: set<string>, made: seq<string>): State {
    s.(live := s.live - Links(id, dropped) + Links(id, Elements(made)))
  }

  ghost predicate IsCut(s: State, id: string, connections: seq<string>, dropped: set<string>, made: seq<string>)
    requires id in s.configs
  {
    var cfg := s.configs[id];
    && dropped <= ToDrop(cfg, connections) && made <= ToAdd(cfg.channels, connections)
    && (made != [] ==> dropped == ToDrop(cfg, connections))
    && (cfg.state == Inactive ==> dropped == {} && made == [])
  }

  /** How far the remote calls of an update came: all disconnects that the number of calls allows, then
      connects up to that number or to the first channel that is connected already. */
  ghost predicate RemoteCalls(s: State, s': State, id: string, connections: seq<string>,
                              dropped: set<string>, made: seq<string>, steps: nat)
    requires id in s.configs
  {
    var drop, add := ToDrop(s.configs[id], connections), ToAdd(s.configs[id].channels, connections);
    && |dropped| == Min(|drop|, steps)
    && (|drop| <= steps && |made| < |add| ==> |made| == steps - |drop| || Link(id, add[|made|]) in s'.live)
  }

  /** A cut-off update can be repeated with the same list if and only if it had connected nothing;
      then it ends where one success would have. */
  lemma {:induction false} UpdateRetryExact(s: State, id: string, connections: seq<string>, dropped: set<string>,
                                            made: seq<string>)
    requires Inv(s) && id in s.configs && NoRepeats(connections) && IsCut(s, id, connections, dropped, made)
    ensures var s1 := UpdateCut(s, id, dropped, made);
      && (CanUpdate(s1, id, connections) <==> made == [])
      && (made == [] ==> Apply(s1, Update(id, connections)) == Apply(s, Update(id, connections)))
  {
    var s1, cfg := UpdateCut(s, id, dropped, made), s.configs[id];
    AddsNewChannels(cfg.channels, connections);
    assert Reconciled(s, id);
    if made != [] {
      assert made[0] in ToAdd(cfg.channels, connections) && made[0] in Elements(made);
      assert Link(id, made[0]) in s1.live;
    } else {
      forall c | c in ToAdd(cfg.channels, connections) ensures Link(id, c) !in s1.live {
        assert c in Elements(ToAdd(cfg.channels, connections));
      }
      assert Apply(s1, Update(id, connections)).live == Apply(s, Update(id, connections)).live;
    }
  }

  /** An update of `["x"]` to `["x", "y", "z"]` that connected `y` only can never be repeated. */
  lemma {:induction false} CutUpdateIsStuck()
    ensures var s := Run(NOTHING, [Add("c", {"x"}), Change("c", Active)] + []);
      var s1 := UpdateCut(s, "c", {}, ["y"]);
      "c" in s.configs && IsCut(s, "c", ["x", "y", "z"], {}, ["y"]) && !CanUpdate(s1, "c", ["x", "y", "z"])
  {
    ActivatedClient([]);
    var s := Run(NOTHING, [Add("c", {"x"}), Change("c", Active)] + []);
    var x, xy, xyz := ["x"], ["x", "y"], ["x", "y", "z"];
    assert xyz[..2] == xy && xy[..1] == x && x[..0] == [];
    assert ToAdd({"x"}, x) == [] && ToAdd({"x"}, xy) == ["y"] && ToAdd({"x"}, xyz) == ["y", "z"];
    assert ToDrop(s.configs["c"], xyz) == {} by {
      assert "x" in xyz;
    }
    UpdateRetryExact(s, "c", xyz, {}, ["y"]);
  }

  /** A cut-off update is recovered by deactivating, storing the list and activating again. */
  lemma {:induction false} RecoverByDeactivating(s: State, id: string, connections: seq<string>,
                                                 dropped: set<string>, made: seq<string>)
    requires Inv(s) && id in s.configs && s.configs[id].state == Active
    requires NoRepeats(connections) && connections != [] && IsCut(s, id, connections, dropped, made)
    ensures var s1 := Apply(UpdateCut(s, id, dropped, made), Change(id, Inactive));
      CanUpdate(s1, id, connections) &&
      Apply(Apply(s1, Update(id, connections)), Change(id, Active)) == Apply(s, Update(id, connections))
  {
    var cfg := s.configs[id];
    AddsNewChannels(cfg.channels, connections);
    forall c | c in Elements(made) ensures c in Elements(connections) {
      assert c in Elements(ToAdd(cfg.channels, connections));
    }
    assert Reconciled(s, id);
    var s1 := Apply(UpdateCut(s, id, dropped, made), Change(id, Inactive));
    var s3 := Apply(Apply(s1, Update(id, connections)), Change(id, Active));
    var whole := Apply(s, Update(id, connections));
    forall l ensures l in s3.live <==> l in whole.live {
      assert l.client == id ==> (l in s.live <==> l.channel in cfg.channels);
    }
    assert s3.configs == whole.configs;
  }

  // ----- the service

  class BootstrapService {
    var configs: map<string, Config>
    var live: set<Link>

    ghost function View(): State
      reads this
    {
      State(configs, live)
    }

    constructor ()
      ensures View() == State(map[], {})
    {
      configs, live := map[], {};
    }

    /** The channels service refuses to connect what is connected. */
    method ConnectOne(client: string, channel: string) returns (conflict: bool)
      modifies this`live
      ensures conflict <==> Link(client, channel) in old(live)
      ensures live == old(live) + {Link(client, channel)}
    {
      conflict := Link(client, channel) in live;
      live := live + {Link(client, channel)};
    }

    /** A missing connection is ignored; stops after `steps` calls. */
    method DisconnectEach(client: string, channels: seq<string>, steps: nat) returns (done: nat)
      modifies this`live
      ensures done == if |channels| <= steps then |channels| else steps
      ensures live == old(live) - Links(client, Elements(channels[..done]))
    {
      done := 0;
      while done < |channels| && done < steps
        invariant done <= |channels| && done <= steps
        invariant live == old(live) - Links(client, Elements(channels[..done]))
      {
        assert channels[..done + 1] == channels[..done] + [channels[done]];
        live := live - {Link(client, channels[done])};
        done := done + 1;
      }
    }

    /** Stops at the first conflict, or after `steps` calls. */
    method ConnectEach(client: string, channels: seq<string>, steps: nat) returns (made: nat)
      modifies this`live
      ensures made <= |channels|
      ensures made == |channels| <==>
        NoRepeats(channels) && |channels| <= steps && forall c | c in channels :: Link(client, c) !in old(live)
      ensures live == old(live) + Links(client, Elements(channels[..made]))
      ensures made < |channels| ==> made == steps || Link(client, channels[made]) in live
    {
      made := 0;
      while made < |channels| && made < steps
        invariant made <= |channels| && made <= steps
        invariant live == old(live) + Links(client, Elements(channels[..made]))
        invariant NoRepeats(channels[..made]) && forall k | 0 <= k < made :: Link(client, channels[k]) !in old(live)
      {
        assert channels[..made + 1] == channels[..made] + [channels[made]];
        var conflict := ConnectOne(client, channels[made]);
        if conflict {
          assert Link(client, channels[made]) in old(live) || channels[made] in channels[..made];
          return made;
        }
        assert channels[made] !in Elements(channels[..made]);
        made := made + 1;
      }
      assert channels[..|channels|] == channels;
    }

    /** The remote calls of an update: all disconnects, then all connects. */
    method Relink(id: string, add: seq<string>, remove: seq<string>, steps: nat)
      returns (ok: bool, ghost dropped: set<string>, ghost made: seq<string>)
      requires NoRepeats(remove) && forall c | c in add :: c !in Elements(remove)
      modifies this`live
      ensures ok <==> NoRepeats(add) && (forall c | c in add :: Link(id, c) !in old(live)) && |remove| + |add| <= steps
      ensures View() == UpdateCut(old(View()), id, dropped, made)
      ensures dropped <= Elements(remove) && made <= add && (made != [] ==> dropped == Elements(remove))
      ensures ok ==> dropped == Elements(remove) && made == add
      ensures |dropped| == Min(|remove|, steps)
      ensures |remove| <= steps && |made| < |add| ==> |made| == steps - |remove| || Link(id, add[|made|]) in live
    {
      made := [];
      var gone := DisconnectEach(id, remove, steps);
      dropped := Elements(remove[..gone]);
      ElementsSize(remove[..gone]);
      if gone < |remove| {
        return false, dropped, made;
      }
      assert remove[..gone] == remove;
      var n := ConnectEach(id, add, steps - gone);
      made := add[..n];
      assert n == |add| ==> made == add;
      ok := n == |add|;
    }

    /** Disconnects, connects, then stores the list. The call ends at the first conflict while
        connecting, after `steps` remote calls, or when the list cannot be stored; what was done
        before stays. */
    method UpdateConnections(id: string, connections: seq<string>, existing: seq<string>, unreachable: set<string>,
                             steps: nat, writeFails: bool)
      returns (ok: bool, ghost dropped: set<string>, ghost made: seq<string>)
      modifies this
      ensures ok <==>
        && CanUpdate(old(View()), id, connections)
        && (Elements(connections) - Elements(existing)) !! unreachable && !writeFails
        && (old(configs)[id].state == Active ==>
              |ToDrop(old(configs)[id], connections)| + |ToAdd(old(configs)[id].channels, connections)| <= steps)
      ensures ok ==> View() == Apply(old(View()), Update(id, connections))
      ensures ok && connections != [] ==> configs[id].channels == Elements(connections)
      ensures !ok ==> View() == UpdateCut(old(View()), id, dropped, made)
      ensures !ok && id in old(configs) ==> IsCut(old(View()), id, connections, dropped, made)
      ensures (Elements(connections) - Elements(existing)) !! unreachable ==>
        (id in old(configs) && old(configs)[id].state == Active ==>
           RemoteCalls(old(View()), View(), id, connections, dropped, made, steps))
    {
      dropped, made, ok := {}, [], false;
      assert UpdateCut(old(View()), id, {}, []) == old(View());
      if id !in configs {
        return;
      }
      var cfg := configs[id];
      var add, remove := UpdateList(cfg.channels, connections);
      var found, fetched := ConnectionChannels(connections, existing, unreachable);
      if !found {
        return;
      }
      if cfg.state == Active {
        KeptOrNew(cfg, connections);
        if NoRepeats(connections) {
          AddsNewChannels(cfg.channels, connections);
        }
        var linked;
        linked, dropped, made := Relink(id, add, remove, steps);
        if !linked {
          return;
        }
      }
      if !NoRepeats(connections) || writeFails {
        return;
      }
      AddsNewChannels(cfg.channels, connections);
      configs := configs[id := cfg.(channels := StoredList(cfg, connections))];
      ok := true;
    }

    /** Channel by channel, until done or until one fails after `steps` of them. */
    method Sweep(id: string, target: ConfigState, channels: set<string>, steps: nat)
      returns (done: bool, ghost reached: set<string>)
      modifies this`live
      ensures done <==> |channels| <= steps
      ensures reached <= channels && |reached| == Min(|channels|, steps) && (done ==> reached == channels)
      ensures View() == Attempt(old(View()), id, target, reached)
    {
      var keys := KeysOf(channels);
      var n := Min(|keys|, steps);
      reached := {};
      assert View() == Attempt(old(View()), id, target, {});
      for i := 0 to n
        invariant reached == Elements(keys[..i]) && live == Attempt(old(View()), id, target, reached).live
      {
        assert keys[..i + 1] == keys[..i] + [keys[i]];
        AttemptMore(old(View()), id, target, reached, keys[i]);
        if target == Active {
          var _ := ConnectOne(id, keys[i]);
        } else {
          live := live - {Link(id, keys[i])};
        }
        reached := reached + {keys[i]};
      }
      ElementsSize(keys[..n]);
      assert keys[..|keys|] == keys;
      done := n == |keys|;
    }

    /** Conflicts while connecting are ignored; `writeFails` is the write of the new state. */
    method ChangeState(id: string, target: ConfigState, steps: nat, writeFails: bool)
      returns (ok: bool, ghost reached: set<string>)
      modifies this
      ensures id !in old(configs) ==> !ok && View() == old(View())
      ensures id in old(configs) && old(configs)[id].state == target ==> ok && View() == old(View())
      ensures id in old(configs) && old(configs)[id].state != target ==>
        && (ok <==> |old(configs)[id].channels| <= steps && !writeFails)
        && reached <= old(configs)[id].channels && |reached| == Min(|old(configs)[id].channels|, steps)
        && View() == if ok then Apply(old(View()), Change(id, target)) else Attempt(old(View()), id, target, reached)
    {
      reached := {};
      if id !in configs {
        return false, {};
      }
      var cfg := configs[id];
      if cfg.state == target {
        return true, {};
      }
      var done;
      done, reached := Sweep(id, target, cfg.channels, steps);
      if !done || writeFails {
        return false, reached;
      }
      configs := configs[id := cfg.(state := target)];
      return true, reached;
    }
  }
}
