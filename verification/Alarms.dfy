/** Alarm deduplication: the insert-if-changed query keeps a compressed log of the
    submitted events, one log per alarm key. */
module Alarms {
  import opened Common

  const ACTIVE: nat := 0
  const SEVERITY_MAX: nat := 100

  /** The columns that the query compares for equality. */
  datatype Key = Key(domain: string, rule: string, channel: string, client: string,
                     subtopic: string, measurement: string)

  /** A submitted event, and equally a stored row: the columns the query reads. */
  datatype Event = Event(key: Key, time: int, status: nat, severity: nat)

  /** `ORDER BY created_at DESC LIMIT 1` over the rows of a key at or before `t`. */
  function AsOf(log: seq<Event>, key: Key, t: int): Option<Event> {
    if log == [] then None
    else
      var init, last := log[..|log| - 1], log[|log| - 1];
      var best := AsOf(init, key, t);
      if last.key == key && last.time <= t && (best.None? || best.value.time <= last.time) then Some(last) else best
  }

  /** The `WHERE` clause of the insert. */
  predicate Inserts(rows: seq<Event>, e: Event) {
    match AsOf(rows, e.key, e.time)
    case Some(existing) =>
      || existing.status != e.status
      || (e.status == ACTIVE && existing.status == ACTIVE && existing.severity != e.severity)
    case None => e.status == ACTIVE
  }

  function Insert(rows: seq<Event>, e: Event): seq<Event> {
    if Inserts(rows, e) then rows + [e] else rows
  }

  // ----- what a log says about a key at a time

  datatype Answer = NeverActive | Active(severity: nat) | Other(status: nat)

  /** The severity matters only while the alarm is active. */
  function Observe(e: Event): Answer {
    if e.status == ACTIVE then Active(e.severity) else Other(e.status)
  }

  function StoredAnswer(rows: seq<Event>, key: Key, t: int): Answer {
    match AsOf(rows, key, t)
    case Some(row) => Observe(row)
    case None => NeverActive
  }

  ghost predicate HasActive(events: seq<Event>, key: Key, t: int) {
    exists e | e in events :: e.key == key && e.time <= t && e.status == ACTIVE
  }

  /** What the full history says: nothing before the first active event, then the latest event. */
  ghost function TrueAnswer(events: seq<Event>, key: Key, t: int): Answer {
    if HasActive(events, key, t) && AsOf(events, key, t).Some? then Observe(AsOf(events, key, t).value)
    else NeverActive
  }

  ghost predicate Faithful(rows: seq<Event>, events: seq<Event>) {
    forall key, t :: StoredAnswer(rows, key, t) == TrueAnswer(events, key, t)
  }

  ghost predicate DistinctTimes(events: seq<Event>) {
    forall i, j | 0 <= i < j < |events| && events[i].key == events[j].key :: events[i].time != events[j].time
  }

  ghost predicate Increasing(events: seq<Event>) {
    forall i, j | 0 <= i < j < |events| && events[i].key == events[j].key :: events[i].time < events[j].time
  }

  ghost predicate Within(rows: seq<Event>, events: seq<Event>) {
    forall r | r in rows :: r in events
  }

  // ----- facts about AsOf

  ghost predicate Candidate(e: Event, key: Key, t: int) {
    e.key == key && e.time <= t
  }

  lemma {:induction false} AsOfIsLatest(log: seq<Event>, key: Key, t: int)
    ensures AsOf(log, key, t).None? ==> forall e | e in log :: !Candidate(e, key, t)
    ensures AsOf(log, key, t).Some? ==>
      var x := AsOf(log, key, t).value;
      x in log && Candidate(x, key, t) && forall e | e in log && Candidate(e, key, t) :: e.time <= x.time
  {
    if log != [] {
      AsOfIsLatest(log[..|log| - 1], key, t);
      assert log == log[..|log| - 1] + [log[|log| - 1]];
    }
  }

  lemma {:induction false} AsOfUnique(log: seq<Event>, key: Key, t: int, x: Event)
    requires DistinctTimes(log)
    requires x in log && Candidate(x, key, t)
    requires forall e | e in log && Candidate(e, key, t) :: e.time <= x.time
    ensures AsOf(log, key, t) == Some(x)
  {
    AsOfIsLatest(log, key, t);
    var y := AsOf(log, key, t).value;
    assert y.time == x.time;
  }

  lemma {:induction false} AsOfAppend(log: seq<Event>, e: Event, key: Key, t: int)
    ensures AsOf(log + [e], key, t) ==
      var best := AsOf(log, key, t);
      if Candidate(e, key, t) && (best.None? || best.value.time <= e.time) then Some(e) else best
  {
    assert (log + [e])[..|log|] == log;
  }

  /** Between two times with no row of the key in between, the table reads the same. */
  lemma {:induction false} AsOfQuiet(log: seq<Event>, key: Key, t0: int, t1: int)
    requires t0 <= t1 && DistinctTimes(log)
    requires forall r | r in log && r.key == key :: r.time <= t0 || t1 < r.time
    ensures AsOf(log, key, t0) == AsOf(log, key, t1)
  {
    AsOfIsLatest(log, key, t0);
    AsOfIsLatest(log, key, t1);
    if AsOf(log, key, t0).Some? {
      AsOfUnique(log, key, t1, AsOf(log, key, t0).value);
    }
  }

  // ----- one submission, in any order

  /** The event of the same key that follows `e` in time, if there is one. */
  ghost predicate IsNext(events: seq<Event>, e: Event, n: Event) {
    && n in events && n.key == e.key && e.time < n.time
    && forall m | m in events && m.key == e.key && e.time < m.time :: n.time <= m.time
  }

  /** The condition on a submission: it is suppressed, or nothing later was submitted for
      its key, or the event that follows it is itself a stored row. */
  ghost predicate InOrder(rows: seq<Event>, events: seq<Event>, e: Event) {
    !Inserts(rows, e) || forall n | IsNext(events, e, n) :: n in rows
  }

  /** An inserted event follows an active one or is active. */
  lemma {:induction false} InsertedMeansActive(rows: seq<Event>, events: seq<Event>, e: Event, t: int)
    requires Faithful(rows, events) && Inserts(rows, e) && e.time <= t
    ensures HasActive(events + [e], e.key, t)
  {
    if e.status == ACTIVE {
      assert e in events + [e];
    } else {
      assert StoredAnswer(rows, e.key, e.time) == TrueAnswer(events, e.key, e.time);
      var a :| a in events && a.key == e.key && a.time <= e.time && a.status == ACTIVE;
      assert a in events + [e];
    }
  }

  lemma {:induction false} StepKeepsAnswer(rows: seq<Event>, events: seq<Event>, e: Event, key: Key, t: int)
    requires DistinctTimes(events + [e]) && DistinctTimes(rows) && Within(rows, events) && Faithful(rows, events)
    requires InOrder(rows, events, e)
    ensures StoredAnswer(Insert(rows, e), key, t) == TrueAnswer(events + [e], key, t)
  {
    AsOfAppend(events, e, key, t);
    AsOfAppend(rows, e, key, t);
    AsOfIsLatest(events, key, t);
    AsOfIsLatest(rows, key, t);
    assert StoredAnswer(rows, key, t) == TrueAnswer(events, key, t);
    assert HasActive(events, key, t) ==> HasActive(events + [e], key, t) by {
      assert forall x | x in events :: x in events + [e];
    }
    if !Candidate(e, key, t) {
      assert HasActive(events + [e], key, t) ==> HasActive(events, key, t);
    } else if Inserts(rows, e) {
      InsertedMeansActive(rows, events, e, t);
      if AsOf(events, key, t).Some? && AsOf(events, key, t).value.time > e.time {
        var n := NextAfter(events, e, AsOf(events, key, t).value);
        assert n in rows && Candidate(n, key, t);
      }
    } else {
      SuppressedKeepsAnswer(rows, events, e, t);
    }
  }

  lemma {:induction false} SuppressedKeepsAnswer(rows: seq<Event>, events: seq<Event>, e: Event, t: int)
    requires DistinctTimes(events + [e]) && DistinctTimes(rows) && Within(rows, events) && Faithful(rows, events)
    requires !Inserts(rows, e) && e.time <= t
    ensures StoredAnswer(rows, e.key, t) == TrueAnswer(events + [e], e.key, t)
  {
    AsOfAppend(events, e, e.key, t);
    AsOfIsLatest(events, e.key, t);
    AsOfIsLatest(rows, e.key, t);
    AsOfIsLatest(rows, e.key, e.time);
    assert StoredAnswer(rows, e.key, t) == TrueAnswer(events, e.key, t);
    assert StoredAnswer(rows, e.key, e.time) == TrueAnswer(events, e.key, e.time);
    assert HasActive(events, e.key, t) <==> HasActive(events + [e], e.key, t) by {
      assert forall x | x in events :: x in events + [e];
      assert forall x | x in events + [e] :: x in events || x == e;
    }
    var latest := AsOf(events, e.key, t);
    if latest.None? || latest.value.time <= e.time {
      AsOfQuiet(rows, e.key, e.time, t);
    }
  }

  /** A witness for the next event, found from any later one. */
  lemma {:induction false} NextAfter(events: seq<Event>, e: Event, later: Event) returns (n: Event)
    requires later in events && later.key == e.key && e.time < later.time
    ensures IsNext(events, e, n) && n.time <= later.time
    decreases later.time - e.time
  {
    n := later;
    if m :| m in events && m.key == e.key && e.time < m.time < later.time {
      n := NextAfter(events, e, m);
    }
  }

  /** The event that follows an inserted one, if it was suppressed, observes otherwise. */
  lemma {:induction false} SkippedNextDiffers(rows: seq<Event>, events: seq<Event>, e: Event, n: Event)
    requires DistinctTimes(events) && DistinctTimes(rows) && Within(rows, events) && Faithful(rows, events)
    requires Inserts(rows, e) && IsNext(events, e, n) && n !in rows
    ensures AsOf(events, e.key, n.time) == Some(n)
    ensures AsOf(rows, e.key, n.time) == AsOf(rows, e.key, e.time)
    ensures Observe(n) != Observe(e)
  {
    AsOfUnique(events, e.key, n.time, n);
    AsOfQuiet(rows, e.key, e.time, n.time);
    assert StoredAnswer(rows, e.key, n.time) == TrueAnswer(events, e.key, n.time);
    assert n.status == ACTIVE ==> HasActive(events, e.key, n.time);
  }

  lemma {:induction false} OutOfOrderBreaks(rows: seq<Event>, events: seq<Event>, e: Event)
    requires DistinctTimes(events + [e]) && DistinctTimes(rows) && Within(rows, events) && Faithful(rows, events)
    requires !InOrder(rows, events, e)
    ensures exists t :: StoredAnswer(Insert(rows, e), e.key, t) != TrueAnswer(events + [e], e.key, t)
  {
    var n :| IsNext(events, e, n) && n !in rows;
    assert DistinctTimes(events) by {
      assert forall i | 0 <= i < |events| :: (events + [e])[i] == events[i];
    }
    SkippedNextDiffers(rows, events, e, n);
    AsOfIsLatest(rows, e.key, e.time);
    AsOfAppend(rows, e, e.key, n.time);
    AsOfAppend(events, e, e.key, n.time);
    InsertedMeansActive(rows, events, e, n.time);
    assert StoredAnswer(Insert(rows, e), e.key, n.time) == Observe(e);
    assert TrueAnswer(events + [e], e.key, n.time) == Observe(n);
  }

  /** If the table answers every question as the full history does, then after one more
      submission it still does if and only if the submission is in order. */
  lemma {:induction false} SubmissionExact(rows: seq<Event>, events: seq<Event>, e: Event)
    requires DistinctTimes(events + [e]) && DistinctTimes(rows) && Within(rows, events) && Faithful(rows, events)
    ensures Faithful(Insert(rows, e), events + [e]) <==> InOrder(rows, events, e)
  {
    if InOrder(rows, events, e) {
      forall key, t ensures StoredAnswer(Insert(rows, e), key, t) == TrueAnswer(events + [e], key, t) {
        StepKeepsAnswer(rows, events, e, key, t);
      }
    } else {
      OutOfOrderBreaks(rows, events, e);
    }
  }

  /** Three submissions after which the table answers wrongly: a clearing that arrives late. */
  lemma {:induction false} LateClearingIsLost(key: Key)
    ensures var events := [Event(key, 0, 0, 7), Event(key, 10, 0, 7), Event(key, 5, 1, 7)];
      && DistinctTimes(events)
      && StoredAnswer(Table(events), key, 10) == Other(1) && TrueAnswer(events, key, 10) == Active(7)
  {
    var a, b, c := Event(key, 0, ACTIVE, 7), Event(key, 10, ACTIVE, 7), Event(key, 5, 1, 7);
    assert [a][..0] == [] && [a, b][..1] == [a] && [a, b, c][..2] == [a, b];
    assert [a] + [b] == [a, b] && [a, b] + [c] == [a, b, c] && [a] + [c] == [a, c];
    assert AsOf([a], key, 10) == AsOf([a], key, 5) == Some(a);
    AsOfAppend([a], b, key, 10);
    AsOfAppend([a, b], c, key, 10);
    AsOfAppend([a], c, key, 10);
    assert Table([a]) == [a];
    assert Table([a, b]) == [a];
    assert Table([a, b, c]) == [a, c];
    assert a in [a, b, c];
  }

  // ----- whole runs

  /** The table after a run of submissions. */
  function Table(events: seq<Event>): seq<Event> {
    if events == [] then [] else Insert(Table(events[..|events| - 1]), events[|events| - 1])
  }

  /** No stored row could be left out: just before its time the table answered differently. */
  ghost predicate NoRedundantRow(rows: seq<Event>) {
    forall r | r in rows :: StoredAnswer(rows, r.key, r.time - 1) != Observe(r)
  }

  /** A later submission of a key finds every row of the key in the past. */
  lemma {:induction false} NoRedundantRowStep(rows: seq<Event>, e: Event)
    requires NoRedundantRow(rows) && DistinctTimes(rows)
    requires forall r | r in rows && r.key == e.key :: r.time < e.time
    ensures NoRedundantRow(Insert(rows, e))
  {
    if Inserts(rows, e) {
      forall r | r in rows + [e] ensures StoredAnswer(rows + [e], r.key, r.time - 1) != Observe(r) {
        AsOfAppend(rows, e, r.key, r.time - 1);
        if r == e {
          AsOfQuiet(rows, e.key, e.time - 1, e.time);
        }
      }
    }
  }

  ghost predicate TableInvariant(rows: seq<Event>, events: seq<Event>) {
    Within(rows, events) && Increasing(rows) && Faithful(rows, events) && NoRedundantRow(rows)
  }

  lemma {:induction false} TableInvariantStep(rows: seq<Event>, events: seq<Event>, e: Event)
    requires TableInvariant(rows, events) && DistinctTimes(events + [e])
    requires forall x | x in events && x.key == e.key :: x.time < e.time
    ensures TableInvariant(Insert(rows, e), events + [e])
  {
    assert InOrder(rows, events, e);
    SubmissionExact(rows, events, e);
    NoRedundantRowStep(rows, e);
    assert Within(Insert(rows, e), events + [e]);
    assert Increasing(Insert(rows, e)) by {
      assert forall i | 0 <= i < |rows| :: rows[i] in rows;
    }
  }

  lemma IncreasingLast(events: seq<Event>)
    requires Increasing(events) && events != []
    ensures Increasing(events[..|events| - 1]) && DistinctTimes(events)
    ensures forall x | x in events[..|events| - 1] && x.key == events[|events| - 1].key ::
      x.time < events[|events| - 1].time
  {}

  /** Over every run whose times strictly increase per key, the table is part of the history,
      answers every "state as of t" question as the history does, and holds no redundant row. */
  lemma {:induction false} CompressedLogIsFaithful(events: seq<Event>)
    requires Increasing(events)
    ensures TableInvariant(Table(events), events)
  {
    if events != [] {
      var init, e := events[..|events| - 1], events[|events| - 1];
      IncreasingLast(events);
      CompressedLogIsFaithful(init);
      assert events == init + [e];
      TableInvariantStep(Table(init), init, e);
    }
  }

  // ----- the service call

  datatype Alarm = Alarm(key: Key, value: string, cause: string, status: nat, severity: nat, createdAt: Option<int>)

  predicate Valid(a: Alarm) {
    && a.key.rule != "" && a.key.domain != "" && a.key.channel != "" && a.key.client != ""
    && a.key.measurement != "" && a.value != "" && a.cause != "" && a.severity <= SEVERITY_MAX
  }

  function Stamped(a: Alarm, now: int): Event {
    Event(a.key, if a.createdAt.Some? then a.createdAt.value else now, a.status, a.severity)
  }

  datatype CreateResult = Created | NotFound | StoreError

  class AlarmService {
    var rows: seq<Event>
    ghost var submitted: seq<Event>

    ghost predicate Consistent()
      reads this
    {
      rows == Table(submitted)
    }

    constructor ()
      ensures Consistent() && submitted == []
    {
      rows, submitted := [], [];
    }

    /** The repository call: the query returns the new row, or no row at all. */
    method InsertIfChanged(e: Event, storeFails: bool) returns (r: CreateResult)
      modifies this`rows
      ensures rows == if storeFails then old(rows) else Insert(old(rows), e)
      ensures r == if storeFails then StoreError else if Inserts(old(rows), e) then Created else NotFound
    {
      if storeFails {
        return StoreError;
      }
      var existing := AsOf(rows, e.key, e.time);
      var changed := existing.Some? &&
        (existing.value.status != e.status ||
         (e.status == ACTIVE && existing.value.status == ACTIVE && existing.value.severity != e.severity));
      if changed || (existing.None? && e.status == ACTIVE) {
        rows := rows + [e];
        return Created;
      }
      return NotFound;
    }

    /** The service call counts a suppressed duplicate as success; every call that reports
        success adds exactly its stamped event to the history the table compresses. */
    method CreateAlarm(a: Alarm, now: int, idFails: bool, storeFails: bool) returns (ok: bool)
      requires Consistent()
      modifies this
      ensures Consistent()
      ensures ok <==>
        && !idFails && !storeFails && a.severity <= 100 && a.value != "" && a.cause != ""
        && a.key.rule != "" && a.key.domain != "" && a.key.channel != "" && a.key.client != ""
        && a.key.measurement != ""
      ensures !ok ==> submitted == old(submitted) && rows == old(rows)
      ensures ok ==> |submitted| == |old(submitted)| + 1 && submitted[..|old(submitted)|] == old(submitted)
      ensures ok ==>
        var e := submitted[|old(submitted)|];
        && e.key == a.key && e.status == a.status && e.severity == a.severity
        && e.time == match a.createdAt { case Some(t) => t case None => now }
    {
      if idFails || !Valid(a) {
        return false;
      }
      var e := Stamped(a, now);
      var r := InsertIfChanged(e, storeFails);
      if r.StoreError? {
        return false;
      }
      submitted := submitted + [e];
      assert submitted[..|submitted| - 1] == old(submitted);
      return true;
    }
  }
}
