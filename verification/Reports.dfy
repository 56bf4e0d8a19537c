/** Report assembly: metrics are expanded per client, messages are read page by page, and the
    result is split by publisher. */
module Reports {
  import opened Common

  /** A requested metric and, after expansion, one metric per client. */
  datatype Request = Request(channel: string, clients: seq<string>, name: string, subtopic: string, protocol: string,
                             format: string)
  datatype Metric = Metric(channel: string, client: string, name: string, subtopic: string, protocol: string,
                           format: string)

  /** A message: its publisher, and whatever else it carries. */
  datatype Message = Message(publisher: string, content: string)

  datatype Report = Report(metric: Metric, messages: seq<Message>)

  /** The part of the page metadata that selects messages. */
  datatype Filter = Filter(name: string, publisher: string, subtopic: string, protocol: string, format: string)

  /** The reader over an unchanging store: the whole result of a query. */
  type Reader = (string, Filter) -> seq<Message>

  /** The calls to the reader that fail, by query and number of the page. */
  type Outage = (string, Filter) -> (nat -> bool)

  // ----- paging

  newtype Uint64 = x: int | 0 <= x < 0x1_0000_0000_0000_0000

  const LIMIT: Uint64 := 1000
  const MAX_TOTAL: int := 0x1_0000_0000_0000_0000 - 1000

  /** One call to the reader: the messages from `offset` on, at most `LIMIT` of them. */
  function Page(whole: seq<Message>, offset: Uint64): seq<Message> {
    if offset as int >= |whole| then []
    else if offset as int + LIMIT as int >= |whole| then whole[offset as int..]
    else whole[offset as int..offset as int + LIMIT as int]
  }

  /** Page `k` is asked for: the first one always, a later one while there are messages left. */
  predicate PageRead(whole: seq<Message>, k: nat) {
    k == 0 || k * 1000 < |whole|
  }

  ghost predicate PageFails(whole: seq<Message>, fails: nat -> bool) {
    exists k: nat :: PageRead(whole, k) && fails(k)
  }

  /** The page loop ends, its offset never overflows, and it gathers the whole result in order,
      unless one of the pages it asks for fails. */
  method ReadPages(whole: seq<Message>, fails: nat -> bool) returns (r: Option<seq<Message>>)
    requires |whole| < MAX_TOTAL
    ensures r.None? <==> PageFails(whole, fails)
    ensures r.Some? ==> r.value == whole
  {
    if fails(0) {
      assert PageRead(whole, 0);
      return None;
    }
    var offset: Uint64 := 0;
    var total: Uint64 := |whole| as Uint64;
    var messages := Page(whole, offset);
    var k := 0;
    while total > offset + LIMIT
      invariant offset as int == k * 1000 && PageRead(whole, k)
      invariant forall q: nat | q <= k :: !fails(q)
      invariant messages == whole[..if offset as int + 1000 <= |whole| then offset as int + 1000 else |whole|]
      decreases total - offset
    {
      offset, k := offset + LIMIT, k + 1;
      assert PageRead(whole, k);
      if fails(k) {
        return None;
      }
      var page := Page(whole, offset);
      messages := messages + page;
    }
    assert whole[..|whole|] == whole;
    return Some(messages);
  }

  // ----- splitting by publisher

  function ByPublisher(msgs: seq<Message>, publisher: string): seq<Message> {
    if msgs == [] then []
    else
      var init, last := msgs[..|msgs| - 1], msgs[|msgs| - 1];
      ByPublisher(init, publisher) + if last.publisher == publisher then [last] else []
  }

  /** The positions `ps` pick the publisher's messages out of the result: all of them, in order. */
  ghost predicate Picks(msgs: seq<Message>, publisher: string, picked: seq<Message>, ps: seq<nat>) {
    && |ps| == |picked|
    && (forall k | 0 <= k < |ps| :: ps[k] < |msgs| && picked[k] == msgs[ps[k]])
    && (forall j, k | 0 <= j < k < |ps| :: ps[j] < ps[k])
    && (forall i: nat | i < |msgs| :: i in ps <==> msgs[i].publisher == publisher)
  }

  /** What a report of a publisher holds: that publisher's messages, each once, in their order. */
  ghost predicate Selected(msgs: seq<Message>, publisher: string, picked: seq<Message>) {
    exists ps: seq<nat> :: Picks(msgs, publisher, picked, ps)
  }

  lemma {:induction false} ByPublisherSelects(msgs: seq<Message>, publisher: string) returns (ps: seq<nat>)
    ensures Picks(msgs, publisher, ByPublisher(msgs, publisher), ps)
  {
    ps := [];
    if msgs != [] {
      var init, last := msgs[..|msgs| - 1], msgs[|msgs| - 1];
      ps := ByPublisherSelects(init, publisher);
      assert |init| !in ps;
      assert forall i: nat | i < |init| :: init[i] == msgs[i];
      ps := ps + if last.publisher == publisher then [|init|] else [];
    }
  }

  ghost predicate Published(msgs: seq<Message>, publisher: string) {
    exists m | m in msgs :: m.publisher == publisher
  }

  ghost predicate HasReport(reports: seq<Report>, publisher: string) {
    exists r | r in reports :: r.metric.client == publisher
  }

  /** One report per publisher, holding that publisher's messages in order; with no messages, one
      empty report. */
  ghost predicate Partition(metric: Metric, msgs: seq<Message>, reports: seq<Report>) {
    if msgs == [] then reports == [Report(metric, [])]
    else
      && (forall i, j | 0 <= i < j < |reports| :: reports[i].metric.client != reports[j].metric.client)
      && (forall r | r in reports :: Published(msgs, r.metric.client)
            && r == Report(metric.(client := r.metric.client), ByPublisher(msgs, r.metric.client)))
      && (forall m | m in msgs :: HasReport(reports, m.publisher))
  }

  /** Every report of a partition holds its publisher's messages, each once, in their order. */
  lemma {:induction false} PartitionKeepsOrder(metric: Metric, msgs: seq<Message>, reports: seq<Report>, r: Report)
    requires Partition(metric, msgs, reports) && r in reports && msgs != []
    ensures Selected(msgs, r.metric.client, r.messages) && r.metric == metric.(client := r.metric.client)
  {
    var ps := ByPublisherSelects(msgs, r.metric.client);
  }

  /** A map of slices, filled message by message. */
  method CollectByPublisher(msgs: seq<Message>) returns (publishers: map<string, seq<Message>>)
    ensures forall p :: p in publishers <==> Published(msgs, p)
    ensures forall p | p in publishers :: publishers[p] == ByPublisher(msgs, p)
  {
    publishers := map[];
    for i := 0 to |msgs|
      invariant forall p :: p in publishers <==> Published(msgs[..i], p)
      invariant forall p :: ByPublisher(msgs[..i], p) == if p in publishers then publishers[p] else []
    {
      var p := msgs[i].publisher;
      assert msgs[..i + 1] == msgs[..i] + [msgs[i]];
      assert msgs[..i + 1][..i] == msgs[..i];
      publishers := publishers[p := (if p in publishers then publishers[p] else []) + [msgs[i]]];
    }
    assert msgs[..|msgs|] == msgs;
  }

  /** One report per key of the map, in any order. */
  method ReportPerKey(metric: Metric, publishers: map<string, seq<Message>>) returns (reports: seq<Report>)
    ensures forall i, j | 0 <= i < j < |reports| :: reports[i].metric.client != reports[j].metric.client
    ensures forall r | r in reports ::
      r.metric.client in publishers && r == Report(metric.(client := r.metric.client), publishers[r.metric.client])
    ensures forall p | p in publishers :: HasReport(reports, p)
  {
    reports := [];
    var todo := publishers.Keys;
    while todo != {}
      invariant todo <= publishers.Keys
      invariant forall i, j | 0 <= i < j < |reports| :: reports[i].metric.client != reports[j].metric.client
      invariant forall r | r in reports ::
        && r.metric.client in publishers.Keys - todo
        && r == Report(metric.(client := r.metric.client), publishers[r.metric.client])
      invariant forall p | p in publishers.Keys - todo :: HasReport(reports, p)
      decreases |todo|
    {
      var p :| p in todo;
      var r := Report(metric.(client := p), publishers[p]);
      ghost var before := reports;
      reports := reports + [r];
      assert r in reports;
      forall q | q in publishers.Keys - todo ensures HasReport(reports, q) {
        assert HasReport(before, q);
        var x :| x in before && x.metric.client == q;
        assert x in reports;
      }
      todo := todo - {p};
    }
  }

  method GroupReportsByPublisher(metric: Metric, msgs: seq<Message>) returns (reports: seq<Report>)
    ensures Partition(metric, msgs, reports)
    ensures reports != []
    ensures msgs != [] ==> forall r | r in reports :: Selected(msgs, r.metric.client, r.messages)
  {
    var publishers := CollectByPublisher(msgs);
    assert forall m | m in msgs :: m.publisher in publishers;
    assert msgs != [] ==> msgs[0] in msgs;
    reports := ReportPerKey(metric, publishers);
    if reports == [] {
      reports := [Report(metric, [])];
    } else {
      assert reports[0] in reports;
    }
    assert Partition(metric, msgs, reports);
    if msgs != [] {
      forall r | r in reports ensures Selected(msgs, r.metric.client, r.messages) {
        PartitionKeepsOrder(metric, msgs, reports, r);
      }
    }
  }

  // ----- nothing lost, nothing twice

  function Messages(reports: seq<Report>): seq<Message> {
    if reports == [] then [] else Messages(reports[..|reports| - 1]) + reports[|reports| - 1].messages
  }

  lemma {:induction false} ByPublisherCounts(msgs: seq<Message>, publisher: string, m: Message)
    ensures multiset(ByPublisher(msgs, publisher))[m] == if m.publisher == publisher then multiset(msgs)[m] else 0
  {
    if msgs != [] {
      var init, last := msgs[..|msgs| - 1], msgs[|msgs| - 1];
      ByPublisherCounts(init, publisher, m);
      assert msgs == init + [last];
    }
  }

  lemma {:induction false} ReportsCount(msgs: seq<Message>, reports: seq<Report>, m: Message)
    requires forall i, j | 0 <= i < j < |reports| :: reports[i].metric.client != reports[j].metric.client
    requires forall r | r in reports :: r.messages == ByPublisher(msgs, r.metric.client)
    ensures multiset(Messages(reports))[m]
         == if HasReport(reports, m.publisher) then multiset(msgs)[m] else 0
  {
    if reports != [] {
      var init, last := reports[..|reports| - 1], reports[|reports| - 1];
      assert reports == init + [last];
      ReportsCount(msgs, init, m);
      ByPublisherCounts(msgs, last.metric.client, m);
      assert Messages(reports) == Messages(init) + last.messages;
      if last.metric.client == m.publisher {
        assert forall r | r in init :: r.metric.client != m.publisher;
      }
    }
  }

  /** The reports of a partition hold every message exactly as often as the result did. */
  lemma {:induction false} PartitionConserves(metric: Metric, msgs: seq<Message>, reports: seq<Report>)
    requires Partition(metric, msgs, reports)
    ensures multiset(Messages(reports)) == multiset(msgs)
  {
    if msgs == [] {
      assert reports[..0] == [];
    } else {
      forall m ensures multiset(Messages(reports))[m] == multiset(msgs)[m] {
        ReportsCount(msgs, reports, m);
        if m in msgs {
          assert HasReport(reports, m.publisher);
        }
      }
    }
  }

  // ----- expansion of metrics

  function ForClient(r: Request, client: string): Metric {
    Metric(r.channel, client, r.name, r.subtopic, r.protocol, r.format)
  }

  function PerClient(r: Request, clients: seq<string>): seq<Metric> {
    if clients == [] then []
    else PerClient(r, clients[..|clients| - 1]) + [ForClient(r, clients[|clients| - 1])]
  }

  /** One metric per named client, or one metric for all clients. */
  function Expand(requests: seq<Request>): seq<Metric> {
    if requests == [] then []
    else
      var r := requests[|requests| - 1];
      Expand(requests[..|requests| - 1]) + PerClient(r, if r.clients == [] then [""] else r.clients)
  }

  lemma {:induction false} PerClientAt(r: Request, clients: seq<string>)
    ensures |PerClient(r, clients)| == |clients|
    ensures forall i | 0 <= i < |clients| ::
      PerClient(r, clients)[i] == Metric(r.channel, clients[i], r.name, r.subtopic, r.protocol, r.format)
  {
    if clients != [] {
      PerClientAt(r, clients[..|clients| - 1]);
    }
  }

  /** A request gives one metric per named client, in order, or a single one without a client. */
  lemma {:induction false} ExpandOne(r: Request)
    ensures |Expand([r])| == if r.clients == [] then 1 else |r.clients|
    ensures forall i | 0 <= i < |Expand([r])| ::
      var client := if r.clients == [] then "" else r.clients[i];
      Expand([r])[i] == Metric(r.channel, client, r.name, r.subtopic, r.protocol, r.format)
  {
    assert [r][..0] == [];
    PerClientAt(r, if r.clients == [] then [""] else r.clients);
  }

  /** Requests are expanded one after the other. */
  lemma {:induction false} ExpandConcat(a: seq<Request>, b: seq<Request>)
    ensures Expand(a + b) == Expand(a) + Expand(b)
  {
    if b == [] {
      assert a + b == a;
    } else {
      ExpandConcat(a, b[..|b| - 1]);
      assert (a + b)[..|a + b| - 1] == a + b[..|b| - 1];
    }
  }

  method ExpandMetrics(requests: seq<Request>) returns (mets: seq<Metric>)
    ensures mets == Expand(requests)
  {
    mets := [];
    for i := 0 to |requests|
      invariant mets == Expand(requests[..i])
    {
      var r := requests[i];
      assert requests[..i + 1][..i] == requests[..i];
      if r.clients != [] {
        for j := 0 to |r.clients|
          invariant mets == Expand(requests[..i]) + PerClient(r, r.clients[..j])
        {
          assert r.clients[..j + 1][..j] == r.clients[..j];
          mets := mets + [ForClient(r, r.clients[j])];
        }
        assert r.clients[..|r.clients|] == r.clients;
      } else {
        assert PerClient(r, [""]) == PerClient(r, []) + [ForClient(r, "")];
        mets := mets + [ForClient(r, "")];
      }
    }
    assert requests[..|requests|] == requests;
  }

  // ----- the filter in force

  const NO_FILTER := Filter("", "", "", "", "")

  /** Optional fields are set and never cleared: the metadata object is shared by all metrics. */
  function Set(f: Filter, m: Metric): Filter {
    Filter(m.name,
           if m.client != "" then m.client else f.publisher,
           if m.subtopic != "" then m.subtopic else f.subtopic,
           if m.protocol != "" then m.protocol else f.protocol,
           if m.format != "" then m.format else f.format)
  }

  function InForce(mets: seq<Metric>): Filter {
    if mets == [] then NO_FILTER else Set(InForce(mets[..|mets| - 1]), mets[|mets| - 1])
  }

  lemma {:induction false} InForceNext(mets: seq<Metric>, i: nat)
    requires i < |mets|
    ensures InForce(mets[..i + 1]) == Set(InForce(mets[..i]), mets[i])
  {
    assert mets[..i + 1][..i] == mets[..i];
  }

  /** The last metric that sets a field: position `i`, and none after it. */
  ghost predicate LastSet(mets: seq<Metric>, field: Metric -> string, i: nat) {
    i < |mets| && field(mets[i]) != "" && forall j | i < j < |mets| :: field(mets[j]) == ""
  }

  ghost predicate NeverSet(mets: seq<Metric>, field: Metric -> string) {
    forall i | 0 <= i < |mets| :: field(mets[i]) == ""
  }

  /** The value that an optional field of the filter has after a list of metrics. */
  ghost predicate Carried(mets: seq<Metric>, field: Metric -> string, value: string) {
    (NeverSet(mets, field) && value == "") || exists i: nat :: LastSet(mets, field, i) && value == field(mets[i])
  }

  lemma {:induction false} CarriedNext(mets: seq<Metric>, field: Metric -> string, value: string)
    requires mets != [] && Carried(mets[..|mets| - 1], field, value)
    ensures var m := field(mets[|mets| - 1]); Carried(mets, field, if m != "" then m else value)
  {
    var init := mets[..|mets| - 1];
    if field(mets[|mets| - 1]) != "" {
      assert LastSet(mets, field, |mets| - 1);
    } else if NeverSet(init, field) && value == "" {
      assert forall i | 0 <= i < |init| :: field(mets[i]) == field(init[i]);
      assert NeverSet(mets, field);
    } else {
      var i: nat :| LastSet(init, field, i) && value == field(init[i]);
      assert mets[i] == init[i];
      assert forall j | i < j < |init| :: mets[j] == init[j];
      assert LastSet(mets, field, i);
    }
  }

  /** The filter in force has the name of the last metric, and of each optional field the value
      that was set last. */
  lemma {:induction false} FilterInForce(mets: seq<Metric>)
    ensures mets != [] ==> InForce(mets).name == mets[|mets| - 1].name
    ensures Carried(mets, (m: Metric) => m.client, InForce(mets).publisher)
    ensures Carried(mets, (m: Metric) => m.subtopic, InForce(mets).subtopic)
    ensures Carried(mets, (m: Metric) => m.protocol, InForce(mets).protocol)
    ensures Carried(mets, (m: Metric) => m.format, InForce(mets).format)
  {
    if mets != [] {
      var init := mets[..|mets| - 1];
      FilterInForce(init);
      CarriedNext(mets, (m: Metric) => m.client, InForce(init).publisher);
      CarriedNext(mets, (m: Metric) => m.subtopic, InForce(init).subtopic);
      CarriedNext(mets, (m: Metric) => m.protocol, InForce(init).protocol);
      CarriedNext(mets, (m: Metric) => m.format, InForce(init).format);
    }
  }

  /** Reports for one metric: by client when one is named, else split by publisher. */
  ghost predicate ReportsFor(metric: Metric, msgs: seq<Message>, reports: seq<Report>) {
    if metric.client != "" then reports == [Report(metric, msgs)] else Partition(metric, msgs, reports)
  }

  function Flatten(parts: seq<seq<Report>>): seq<Report> {
    if parts == [] then [] else Flatten(parts[..|parts| - 1]) + parts[|parts| - 1]
  }

  /** The query made for metric `i`: its channel and the filter in force when it is reached. */
  ghost function Query(reader: Reader, outage: Outage, mets: seq<Metric>, i: nat): Option<seq<Message>>
    requires i < |mets|
  {
    var channel, f := mets[i].channel, InForce(mets[..i + 1]);
    if PageFails(reader(channel, f), outage(channel, f)) then None else Some(reader(channel, f))
  }

  /** What is read for a metric: its own channel, its own name, and the optional fields set last. */
  lemma {:induction false} QueryReads(reader: Reader, outage: Outage, mets: seq<Metric>, i: nat) returns (f: Filter)
    requires i < |mets|
    ensures Query(reader, outage, mets, i).None? <==>
      PageFails(reader(mets[i].channel, f), outage(mets[i].channel, f))
    ensures Query(reader, outage, mets, i).Some? ==>
      Query(reader, outage, mets, i).value == reader(mets[i].channel, f)
    ensures f.name == mets[i].name && Carried(mets[..i + 1], (m: Metric) => m.client, f.publisher)
    ensures Carried(mets[..i + 1], (m: Metric) => m.subtopic, f.subtopic)
    ensures Carried(mets[..i + 1], (m: Metric) => m.protocol, f.protocol)
    ensures Carried(mets[..i + 1], (m: Metric) => m.format, f.format)
  {
    f := InForce(mets[..i + 1]);
    FilterInForce(mets[..i + 1]);
  }

  /** Metric `i` was answered from the whole result of its query. */
  ghost predicate Answered(reader: Reader, outage: Outage, mets: seq<Metric>, i: nat, part: seq<Report>)
    requires i < |mets|
  {
    var result := Query(reader, outage, mets, i);
    result.Some? && ReportsFor(mets[i], result.value, part) && part != []
  }

  /** Every result stays below the 64-bit limit minus one page. */
  ghost predicate Bounded(reader: Reader) {
    forall channel, f :: |reader(channel, f)| < MAX_TOTAL
  }

  /** Paging and splitting for metric `i`, with the filter in force. */
  method ReportMetric(mets: seq<Metric>, i: nat, pm: Filter, reader: Reader, outage: Outage)
    returns (r: Option<seq<Report>>)
    requires i < |mets| && pm == InForce(mets[..i + 1]) && Bounded(reader)
    ensures r.None? <==> Query(reader, outage, mets, i).None?
    ensures r.Some? ==> Answered(reader, outage, mets, i, r.value)
  {
    var metric := mets[i];
    var sMsgs := ReadPages(reader(metric.channel, pm), outage(metric.channel, pm));
    if sMsgs.None? {
      return None;
    }
    if metric.client != "" {
      return Some([Report(metric, sMsgs.value)]);
    }
    var reports := GroupReportsByPublisher(metric, sMsgs.value);
    return Some(reports);
  }

  ghost predicate AnyFails(reader: Reader, outage: Outage, mets: seq<Metric>) {
    exists i | 0 <= i < |mets| :: Query(reader, outage, mets, i).None?
  }

  /** The first metrics, as many as there are parts, are answered. */
  ghost predicate AllAnswered(reader: Reader, outage: Outage, mets: seq<Metric>, parts: seq<seq<Report>>) {
    |parts| <= |mets| && forall i | 0 <= i < |parts| :: Answered(reader, outage, mets, i, parts[i])
  }

  lemma {:induction false} AnsweredAppend(reader: Reader, outage: Outage, mets: seq<Metric>, parts: seq<seq<Report>>,
                                          part: seq<Report>)
    requires AllAnswered(reader, outage, mets, parts) && |parts| < |mets| &&
      Answered(reader, outage, mets, |parts|, part)
    ensures AllAnswered(reader, outage, mets, parts + [part])
  {
    var longer := parts + [part];
    forall i | 0 <= i < |longer| ensures Answered(reader, outage, mets, i, longer[i]) {
      if i < |parts| {
        assert longer[i] == parts[i] && Answered(reader, outage, mets, i, parts[i]);
      }
    }
  }

  lemma {:induction false} AnsweredIsRead(reader: Reader, outage: Outage, mets: seq<Metric>, parts: seq<seq<Report>>)
    requires AllAnswered(reader, outage, mets, parts) && |parts| == |mets|
    ensures !AnyFails(reader, outage, mets)
  {
    forall i | 0 <= i < |mets| ensures Query(reader, outage, mets, i).Some? {
      assert Answered(reader, outage, mets, i, parts[i]);
    }
  }

  lemma FlattenAppend(parts: seq<seq<Report>>, part: seq<Report>)
    ensures Flatten(parts + [part]) == Flatten(parts) + part
  {
    assert (parts + [part])[..|parts|] == parts;
  }

  /** The loop over the expanded metrics; the page metadata is carried from one to the next. */
  method ReportMetrics(mets: seq<Metric>, reader: Reader, outage: Outage)
    returns (r: Option<seq<Report>>, ghost parts: seq<seq<Report>>)
    requires Bounded(reader)
    ensures r.Some? ==> |parts| == |mets| && r.value == Flatten(parts) && AllAnswered(reader, outage, mets, parts)
    ensures r.None? <==> AnyFails(reader, outage, mets)
  {
    var reports := [];
    parts := [];
    var pm := NO_FILTER;
    for i := 0 to |mets|
      invariant pm == InForce(mets[..i])
      invariant |parts| == i && reports == Flatten(parts)
      invariant AllAnswered(reader, outage, mets, parts)
    {
      InForceNext(mets, i);
      pm := Set(pm, mets[i]);
      var converted := ReportMetric(mets, i, pm, reader, outage);
      if converted.None? {
        return None, [];
      }
      FlattenAppend(parts, converted.value);
      AnsweredAppend(reader, outage, mets, parts, converted.value);
      reports, parts := reports + converted.value, parts + [converted.value];
    }
    AnsweredIsRead(reader, outage, mets, parts);
    return Some(reports), parts;
  }

  /** The body of `generateReport` up to rendering. */
  method GenerateReport(requests: seq<Request>, reader: Reader, outage: Outage)
    returns (r: Option<seq<Report>>, ghost parts: seq<seq<Report>>)
    requires Bounded(reader)
    ensures r.Some? ==>
      |parts| == |Expand(requests)| && r.value == Flatten(parts) && AllAnswered(reader, outage, Expand(requests), parts)
    ensures r.None? <==> AnyFails(reader, outage, Expand(requests))
  {
    var mets := ExpandMetrics(requests);
    r, parts := ReportMetrics(mets, reader, outage);
  }

  // ----- when the filter in force is the metric's own

  lemma {:induction false} InForceKeepsUnset(mets: seq<Metric>)
    ensures InForce(mets).publisher == "" <==> forall m | m in mets :: m.client == ""
    ensures InForce(mets).subtopic == "" <==> forall m | m in mets :: m.subtopic == ""
    ensures InForce(mets).protocol == "" <==> forall m | m in mets :: m.protocol == ""
    ensures InForce(mets).format == "" <==> forall m | m in mets :: m.format == ""
  {
    if mets != [] {
      InForceKeepsUnset(mets[..|mets| - 1]);
      assert mets == mets[..|mets| - 1] + [mets[|mets| - 1]];
    }
  }

  /** A metric is read with its own filter if and only if every optional field it leaves empty was
      left empty by all metrics before it. */
  lemma {:induction false} OwnFilterExactly(before: seq<Metric>, m: Metric)
    ensures InForce(before + [m]) == Set(NO_FILTER, m) <==>
      && (m.client != "" || forall x | x in before :: x.client == "")
      && (m.subtopic != "" || forall x | x in before :: x.subtopic == "")
      && (m.protocol != "" || forall x | x in before :: x.protocol == "")
      && (m.format != "" || forall x | x in before :: x.format == "")
  {
    InForceKeepsUnset(before);
    assert (before + [m])[..|before|] == before;
  }

  /** A metric for all clients that follows one for client `a` is read for `a` only. */
  lemma {:induction false} FilterIsInherited()
    ensures var first, second := Metric("ch", "a", "t", "", "", ""), Metric("ch", "", "t", "", "", "");
      InForce([first, second]).publisher == "a" && Set(NO_FILTER, second).publisher == ""
  {
    var first, second := Metric("ch", "a", "t", "", "", ""), Metric("ch", "", "t", "", "", "");
    assert [first, second][..1] == [first] && [first][..0] == [];
    assert InForce([first]) == Set(NO_FILTER, first);
  }
}
