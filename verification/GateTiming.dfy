/** Where a gate's time went: JUnit durations, per-worker timing blocks, busy time and the critical path.
    Seconds are exact reals. */
module GateTiming {
  import opened Wrappers
  import opened Ordering
  import opened NodeIds
  import opened Collections
  import opened GateEvidence

  const MONOTONIC_EPSILON := 0.02
  const TIMING_VERSION := 1

  // ---------------------------------------------------------------- JUnit times

  /** One JUnit testcase: its node ID when that can be rebuilt, and its seconds. */
  datatype Testcase = Testcase(node: Option<string>, seconds: real)

  datatype JUnitTimes = JUnitTimes(
    unresolved: nat, nodes: seq<string>, nodeSeconds: map<string, real>, fileSeconds: map<string, real>)

  function Time(times: map<string, real>, x: string): real { if x in times then times[x] else 0.0 }

  /** Seconds of the resolved testcases that `key` maps to `x`. */
  ghost function KeyTotal(cases: seq<Testcase>, key: string -> string, x: string): real {
    if cases == [] then 0.0 else
      var last := cases[|cases| - 1];
      KeyTotal(cases[..|cases| - 1], key, x) +
        if last.node.Some? && key(last.node.value) == x then last.seconds else 0.0
  }

  /** Seconds of all resolved testcases. */
  ghost function Resolved(cases: seq<Testcase>): real {
    if cases == [] then 0.0 else
      var last := cases[|cases| - 1];
      Resolved(cases[..|cases| - 1]) + if last.node.Some? then last.seconds else 0.0
  }

  ghost function ResolvedNodes(cases: seq<Testcase>): seq<string> {
    if cases == [] then [] else
      var last := cases[|cases| - 1];
      ResolvedNodes(cases[..|cases| - 1]) + if last.node.Some? then [last.node.value] else []
  }

  ghost function TimeSum(s: set<string>, times: map<string, real>): real {
    if s == {} then 0.0 else var x :| x in s; Time(times, x) + TimeSum(s - {x}, times)
  }

  lemma {:induction false} TimeTake(s: set<string>, times: map<string, real>, x: string)
    requires x in s
    ensures TimeSum(s, times) == Time(times, x) + TimeSum(s - {x}, times)
  {
    var y :| y in s && TimeSum(s, times) == Time(times, y) + TimeSum(s - {y}, times);
    if y != x {
      TimeTake(s - {y}, times, x);
      TimeTake(s - {x}, times, y);
      assert s - {y} - {x} == s - {x} - {y};
    }
  }

  lemma {:induction false} TimeUnion(s: set<string>, t: set<string>, times: map<string, real>)
    requires s * t == {}
    ensures TimeSum(s + t, times) == TimeSum(s, times) + TimeSum(t, times)
  {
    if t == {} {
      assert s + t == s;
    } else {
      var x :| x in t;
      TimeTake(t, times, x);
      TimeTake(s + t, times, x);
      assert s + t - {x} == s + (t - {x});
      TimeUnion(s, t - {x}, times);
    }
  }

  /** Names without a time weigh nothing. */
  lemma {:induction false} TimeOutside(s: set<string>, times: map<string, real>)
    requires forall x :: x in s ==> x !in times
    ensures TimeSum(s, times) == 0.0
  {
    if s != {} {
      var x :| x in s;
      TimeTake(s, times, x);
      TimeOutside(s - {x}, times);
    }
  }

  lemma {:induction false} TimeSame(s: set<string>, v: map<string, real>, w: map<string, real>)
    requires forall x :: x in s ==> Time(v, x) == Time(w, x)
    ensures TimeSum(s, v) == TimeSum(s, w)
  {
    if s != {} {
      var x :| x in s;
      TimeTake(s, v, x);
      TimeTake(s, w, x);
      TimeSame(s - {x}, v, w);
    }
  }

  /** The table with one testcase's seconds added under its key. */
  function Credit(table: map<string, real>, key: string, seconds: real): map<string, real> {
    table[key := Time(table, key) + seconds]
  }

  /** The table a loop over the testcases fills, keyed by some function of the node. */
  ghost function TableOf(cases: seq<Testcase>, key: string -> string): map<string, real> {
    if cases == [] then map[] else
      var last := cases[|cases| - 1];
      var before := TableOf(cases[..|cases| - 1], key);
      if last.node.None? then before else Credit(before, key(last.node.value), last.seconds)
  }

  ghost predicate HasKey(cases: seq<Testcase>, key: string -> string, x: string) {
    exists i :: 0 <= i < |cases| && cases[i].node.Some? && key(cases[i].node.value) == x
  }

  /** Each entry is the seconds of the resolved testcases of that key, and no key is left out. */
  lemma {:induction false} TableMeans(cases: seq<Testcase>, key: string -> string, x: string)
    ensures x in TableOf(cases, key) <==> HasKey(cases, key, x)
    ensures Time(TableOf(cases, key), x) == KeyTotal(cases, key, x)
  {
    if cases != [] {
      var rest, last := cases[..|cases| - 1], cases[|cases| - 1];
      TableMeans(rest, key, x);
      if i :| 0 <= i < |rest| && rest[i].node.Some? && key(rest[i].node.value) == x { assert cases[i] == rest[i]; }
      if i :| 0 <= i < |cases| && cases[i].node.Some? && key(cases[i].node.value) == x {
        if i < |rest| { assert rest[i] == cases[i]; }
      }
    }
  }

  lemma CreditTotal(table: map<string, real>, key: string, seconds: real)
    ensures var after := Credit(table, key, seconds);
      TimeSum(after.Keys, after) == TimeSum(table.Keys, table) + seconds
  {
    var after := Credit(table, key, seconds);
    TimeTake(after.Keys, after, key);
    TimeSame(after.Keys - {key}, table, after);
    if key in table {
      TimeTake(table.Keys, table, key);
      assert after.Keys - {key} == table.Keys - {key};
    } else {
      assert after.Keys - {key} == table.Keys;
    }
  }

  /** However the testcases are grouped, the groups add up to the same whole. */
  lemma {:induction false} TableTotal(cases: seq<Testcase>, key: string -> string)
    ensures TimeSum(TableOf(cases, key).Keys, TableOf(cases, key)) == Resolved(cases)
  {
    if cases != [] {
      var rest, last := cases[..|cases| - 1], cases[|cases| - 1];
      TableTotal(rest, key);
      if last.node.Some? { CreditTotal(TableOf(rest, key), key(last.node.value), last.seconds); }
    }
  }

  function Itself(x: string): string { x }

  /** `read_junit_times`: sums by node and by file, keeping the document order of the nodes. */
  method ReadJUnitTimes(cases: seq<Testcase>) returns (times: JUnitTimes)
    ensures times.nodes == ResolvedNodes(cases) && times.unresolved + |times.nodes| == |cases|
    ensures times.nodeSeconds == TableOf(cases, Itself) && times.fileSeconds == TableOf(cases, NodeFile)
  {
    var unresolved, nodes := 0, [];
    var nodeSeconds: map<string, real>, fileSeconds: map<string, real> := map[], map[];
    for i := 0 to |cases|
      invariant nodes == ResolvedNodes(cases[..i]) && unresolved + |nodes| == i
      invariant nodeSeconds == TableOf(cases[..i], Itself)
      invariant fileSeconds == TableOf(cases[..i], NodeFile)
    {
      assert cases[..i + 1][..i] == cases[..i];
      match cases[i].node {
        case None => unresolved := unresolved + 1;
        case Some(node) =>
          nodes := nodes + [node];
          nodeSeconds := Credit(nodeSeconds, node, cases[i].seconds);
          fileSeconds := Credit(fileSeconds, NodeFile(node), cases[i].seconds);
      }
    }
    assert cases[..|cases|] == cases;
    times := JUnitTimes(unresolved, nodes, nodeSeconds, fileSeconds);
  }

  // ---------------------------------------------------------------- conservation

  /** A worker's JUnit busy time. */
  ghost function ListTime(nodes: seq<string>, times: map<string, real>): real {
    if nodes == [] then 0.0 else ListTime(nodes[..|nodes| - 1], times) + Time(times, nodes[|nodes| - 1])
  }

  ghost function ListsTime(lists: seq<seq<string>>, times: map<string, real>): real {
    if lists == [] then 0.0 else ListsTime(lists[..|lists| - 1], times) + ListTime(lists[|lists| - 1], times)
  }

  method JUnitBusy(nodes: seq<string>, times: map<string, real>) returns (busy: real)
    ensures busy == ListTime(nodes, times)
  {
    busy := 0.0;
    for i := 0 to |nodes|
      invariant busy == ListTime(nodes[..i], times)
    {
      assert nodes[..i + 1][..i] == nodes[..i];
      busy := busy + Time(times, nodes[i]);
    }
    assert nodes[..|nodes|] == nodes;
  }

  lemma {:induction false} ListIsSum(nodes: seq<string>, times: map<string, real>)
    requires Distinct(nodes)
    ensures ListTime(nodes, times) == TimeSum(Elements(nodes), times)
  {
    if nodes != [] {
      var rest, last := nodes[..|nodes| - 1], nodes[|nodes| - 1];
      assert nodes == rest + [last];
      ListIsSum(rest, times);
      assert last !in rest;
      assert Elements(nodes) - {last} == Elements(rest);
      TimeTake(Elements(nodes), times, last);
    }
  }

  lemma {:induction false} ListsAreSum(lists: seq<seq<string>>, times: map<string, real>)
    requires OnceOnly(lists)
    ensures ListsTime(lists, times) == TimeSum(UnionOf(lists), times)
  {
    if lists != [] {
      var rest, last := lists[..|lists| - 1], lists[|lists| - 1];
      ListsAreSum(rest, times);
      ListIsSum(last, times);
      TimeUnion(UnionOf(rest), Elements(last), times);
    }
  }

  /** With executions that partition the collection, no second is lost or counted twice: the workers'
      busy times plus the time of nodes nobody executed are the time of all nodes and of all files. */
  lemma TimeConserved(cases: seq<Testcase>, times: JUnitTimes, lists: seq<seq<string>>, collection: seq<string>)
    requires Distinct(collection) && AllOf(lists) == multiset(collection)
    requires times.nodeSeconds == TableOf(cases, Itself) && times.fileSeconds == TableOf(cases, NodeFile)
    ensures var all := TimeSum(times.nodeSeconds.Keys, times.nodeSeconds);
      && all ==
        ListsTime(lists, times.nodeSeconds) + TimeSum(times.nodeSeconds.Keys - UnionOf(lists), times.nodeSeconds)
      && all == Resolved(cases) == TimeSum(times.fileSeconds.Keys, times.fileSeconds)
  {
    var t := times.nodeSeconds;
    var run := UnionOf(lists);
    TableTotal(cases, Itself);
    TableTotal(cases, NodeFile);
    PartitionIff(lists, collection);
    OnceOnlyIff(lists);
    ListsAreSum(lists, t);
    TimeUnion(run, t.Keys - run, t);
    TimeUnion(t.Keys, run - t.Keys, t);
    TimeOutside(run - t.Keys, t);
    assert run + (t.Keys - run) == t.Keys + (run - t.Keys);
  }

  // ---------------------------------------------------------------- timing blocks

  datatype EventName = PluginLoaded | SessionStart | CollectionFinished | FirstTestStart | LastTestEnd | SessionFinish

  const EVENT_NAMES: seq<EventName> :=
    [PluginLoaded, SessionStart, CollectionFinished, FirstTestStart, LastTestEnd, SessionFinish]

  /** A stamp, by its monotonic reading. `None` is JSON null, `Malformed` anything that is no stamp. */
  datatype Stamp = Null | At(monotonic: real) | Malformed

  datatype FileEntry = FileEntry(seconds: Option<real>, nodeCount: Option<int>, first: Stamp, last: Stamp)

  datatype TimingBlock = TimingBlock(version: int, events: map<EventName, Stamp>, files: map<string, FileEntry>)

  /** A timing block that was believed. */
  datatype WorkerTiming = WorkerTiming(events: map<EventName, Stamp>, fileSeconds: map<string, real>)

  /** Stamps that are present never run backwards in the documented order. */
  predicate Ordered(stamps: seq<Stamp>) {
    forall i, j :: 0 <= i < j < |stamps| && stamps[i].At? && stamps[j].At? ==>
      stamps[i].monotonic <= stamps[j].monotonic
  }

  function NodesIn(executed: seq<string>, file: string): nat {
    if executed == [] then 0 else
      NodesIn(executed[..|executed| - 1], file) + if NodeFile(executed[|executed| - 1]) == file then 1 else 0
  }

  predicate EntryFits(e: FileEntry, count: nat, start: real, end: real) {
    && e.seconds.Some? && e.seconds.value >= 0.0 && e.nodeCount == Some(count)
    && e.first.At? && e.last.At? && start <= e.first.monotonic <= e.last.monotonic <= end
  }

  /** Seconds recorded for the executed files. */
  function FileSeconds(files: map<string, FileEntry>, executed: set<string>): map<string, real> {
    map f | f in executed && f in files && files[f].seconds.Some? :: files[f].seconds.value
  }

  /** The stamps of some events, null for one that is missing. */
  function StampsOf(events: map<EventName, Stamp>, names: seq<EventName>): (r: seq<Stamp>)
    ensures |r| == |names|
  {
    seq(|names|, i requires 0 <= i < |names| => if names[i] in events then events[names[i]] else Null)
  }

  predicate EventsSound(events: map<EventName, Stamp>) {
    && (forall i :: 0 <= i < |EVENT_NAMES| ==> EVENT_NAMES[i] in events && !events[EVENT_NAMES[i]].Malformed?)
    && Ordered(StampsOf(events, EVENT_NAMES))
  }

  /** `_check_event_order`: each stamp against the last one present before it. */
  method CheckEventOrder(stamps: seq<Stamp>) returns (ordered: bool)
    ensures ordered <==> Ordered(stamps)
  {
    var previous: Option<real> := None;
    for i := 0 to |stamps|
      invariant Ordered(stamps[..i])
      invariant forall j :: 0 <= j < i && stamps[j].At? ==> previous.Some? && stamps[j].monotonic <= previous.value
      invariant previous.Some? ==> exists j :: 0 <= j < i && stamps[j] == At(previous.value)
    {
      assert stamps[..i + 1] == stamps[..i] + [stamps[i]];
      if stamps[i].At? {
        if previous.Some? && stamps[i].monotonic < previous.value {
          ghost var j :| 0 <= j < i && stamps[j] == At(previous.value);
          assert stamps[j].At? && stamps[i].At?;
          return false;
        }
        previous := Some(stamps[i].monotonic);
      }
    }
    assert stamps[..|stamps|] == stamps;
    ordered := true;
  }

  method CheckEvents(events: map<EventName, Stamp>) returns (sound: bool)
    ensures sound <==> EventsSound(events)
  {
    for i := 0 to |EVENT_NAMES|
      invariant forall j :: 0 <= j < i ==> EVENT_NAMES[j] in events && !events[EVENT_NAMES[j]].Malformed?
    {
      if EVENT_NAMES[i] !in events || events[EVENT_NAMES[i]].Malformed? { return false; }
    }
    sound := CheckEventOrder(StampsOf(events, EVENT_NAMES));
  }

  /** The entries fit between the first test's start and the last test's end, one by one and in sum. */
  ghost predicate FitsSpan(files: map<string, FileEntry>, executed: seq<string>, first: Stamp, last: Stamp) {
    && first.At? && last.At?
    && (forall f :: f in FilesOf(executed) ==>
         f in files && EntryFits(files[f], NodesIn(executed, f), first.monotonic, last.monotonic))
    && TimeSum(FilesOf(executed), FileSeconds(files, FilesOf(executed)))
       <= last.monotonic - first.monotonic + MONOTONIC_EPSILON
  }

  /** When a block is believed: its events are in order and it speaks of exactly the executed files,
      in entries that count their nodes and fit the span. */
  ghost predicate Believed(b: TimingBlock, executed: seq<string>) {
    && b.version == TIMING_VERSION && EventsSound(b.events) && b.files.Keys <= FilesOf(executed)
    && (executed == [] ||
        (FirstTestStart in b.events && LastTestEnd in b.events &&
         FitsSpan(b.files, executed, b.events[FirstTestStart], b.events[LastTestEnd])))
  }

  method CheckEntries(entries: map<string, FileEntry>, executed: seq<string>, files: set<string>, start: real,
                      end: real)
    returns (fits: bool, busy: real)
    ensures fits <==> forall f :: f in files ==> f in entries && EntryFits(entries[f], NodesIn(executed, f), start, end)
    ensures fits ==> busy == TimeSum(files, FileSeconds(entries, files))
  {
    busy := 0.0;
    var rest := files;
    ghost var seconds := FileSeconds(entries, files);
    while rest != {}
      invariant rest <= files
      invariant forall f :: f in files - rest ==>
        f in entries && EntryFits(entries[f], NodesIn(executed, f), start, end)
      invariant busy + TimeSum(rest, seconds) == TimeSum(files, seconds)
      decreases |rest|
    {
      var f :| f in rest;
      if f !in entries || !EntryFits(entries[f], NodesIn(executed, f), start, end) { return false, 0.0; }
      TimeTake(rest, seconds, f);
      busy := busy + entries[f].seconds.value;
      rest := rest - {f};
    }
    fits := true;
  }

  method ReadTiming(b: TimingBlock, executed: seq<string>) returns (r: Option<WorkerTiming>)
    ensures r.Some? <==> Believed(b, executed)
    ensures r.Some? ==> r.value == WorkerTiming(b.events, FileSeconds(b.files, FilesOf(executed)))
    ensures r.Some? ==> r.value.fileSeconds.Keys == FilesOf(executed) == b.files.Keys
  {
    if b.version != TIMING_VERSION { return None; }
    var sound := CheckEvents(b.events);
    if !sound { return None; }
    var files := FilesOf(executed);
    if !(b.files.Keys <= files) { return None; }
    if executed == [] {
      assert files == {};
      return Some(WorkerTiming(b.events, FileSeconds(b.files, files)));
    }
    assert EVENT_NAMES[3] == FirstTestStart && EVENT_NAMES[4] == LastTestEnd;
    var first, last := b.events[FirstTestStart], b.events[LastTestEnd];
    if !first.At? || !last.At? { return None; }
    var fits, busy := CheckEntries(b.files, executed, files, first.monotonic, last.monotonic);
    if !fits { return None; }
    if busy > last.monotonic - first.monotonic + MONOTONIC_EPSILON { return None; }
    assert b.files.Keys == files;
    return Some(WorkerTiming(b.events, FileSeconds(b.files, files)));
  }

  // ---------------------------------------------------------------- the analysis

  /** A worker's evidence and its timing, when that was believed. */
  datatype TimedWorker = TimedWorker(evidence: WorkerEvidence, timing: Option<WorkerTiming>)

  /** One worker's busy time: from its own stamps when there are any, else from JUnit. */
  datatype WorkerBusy = WorkerBusy(
    index: nat, timestamped: bool, busy: real, junitBusy: real, executedCount: nat, files: map<string, real>)

  datatype Analysis = Analysis(workers: seq<WorkerBusy>, critical: WorkerBusy, unattributed: real)

  /** Seconds per file of the executed nodes. */
  ghost function FilesByNodes(nodes: seq<string>, times: map<string, real>): map<string, real> {
    if nodes == [] then map[] else
      var last := nodes[|nodes| - 1];
      Credit(FilesByNodes(nodes[..|nodes| - 1], times), NodeFile(last), Time(times, last))
  }

  /** They sum to the time of the nodes. */
  lemma {:induction false} FilesAddUp(nodes: seq<string>, times: map<string, real>)
    ensures TimeSum(FilesByNodes(nodes, times).Keys, FilesByNodes(nodes, times)) == ListTime(nodes, times)
  {
    if nodes != [] {
      var rest, last := nodes[..|nodes| - 1], nodes[|nodes| - 1];
      FilesAddUp(rest, times);
      CreditTotal(FilesByNodes(rest, times), NodeFile(last), Time(times, last));
    }
  }

  method FilesOfNodes(nodes: seq<string>, times: map<string, real>) returns (files: map<string, real>)
    ensures files == FilesByNodes(nodes, times)
  {
    files := map[];
    for i := 0 to |nodes|
      invariant files == FilesByNodes(nodes[..i], times)
    {
      assert nodes[..i + 1][..i] == nodes[..i];
      files := Credit(files, NodeFile(nodes[i]), Time(times, nodes[i]));
    }
    assert nodes[..|nodes|] == nodes;
  }

  /** What the analysis says of one worker; the files it lists always add up to its busy time. */
  ghost predicate IsBusy(b: WorkerBusy, w: TimedWorker, times: map<string, real>) {
    && b.index == w.evidence.worker && b.timestamped == w.timing.Some? && b.executedCount == |w.evidence.executed|
    && b.junitBusy == ListTime(w.evidence.executed, times)
    && b.files == (if w.timing.Some? then w.timing.value.fileSeconds else FilesByNodes(w.evidence.executed, times))
    && b.busy == TimeSum(b.files.Keys, b.files)
    && (w.timing.None? ==> b.busy == b.junitBusy)
  }

  method SumTimes(times: map<string, real>) returns (total: real)
    ensures total == TimeSum(times.Keys, times)
  {
    total := 0.0;
    var rest := times.Keys;
    while rest != {}
      invariant rest <= times.Keys
      invariant total + TimeSum(rest, times) == TimeSum(times.Keys, times)
      decreases |rest|
    {
      var x :| x in rest;
      TimeTake(rest, times, x);
      total := total + times[x];
      rest := rest - {x};
    }
  }

  method BusyOf(w: TimedWorker, times: map<string, real>) returns (b: WorkerBusy)
    ensures IsBusy(b, w, times)
  {
    var nodes := w.evidence.executed;
    var junitBusy := JUnitBusy(nodes, times);
    if w.timing.None? {
      var files := FilesOfNodes(nodes, times);
      FilesAddUp(nodes, times);
      return WorkerBusy(w.evidence.worker, false, junitBusy, junitBusy, |nodes|, files);
    }
    var files := w.timing.value.fileSeconds;
    var busy := SumTimes(files);
    return WorkerBusy(w.evidence.worker, true, busy, junitBusy, |nodes|, files);
  }

  predicate InOrder(workers: seq<TimedWorker>) {
    forall i, j :: 0 <= i < j < |workers| ==> workers[i].evidence.worker <= workers[j].evidence.worker
  }

  lemma Inserted<T>(sorted: seq<T>, k: nat, w: T)
    requires k <= |sorted|
    ensures multiset(sorted[..k] + [w] + sorted[k..]) == multiset(sorted) + multiset{w}
  {
    assert sorted == sorted[..k] + sorted[k..];
  }

  lemma Halves(sorted: seq<TimedWorker>, k: nat)
    requires InOrder(sorted) && k <= |sorted|
    ensures InOrder(sorted[..k]) && InOrder(sorted[k..])
  {
  }

  lemma InsertedOrder(low: seq<TimedWorker>, w: TimedWorker, high: seq<TimedWorker>)
    requires InOrder(low) && InOrder(high)
    requires low != [] ==> low[|low| - 1].evidence.worker <= w.evidence.worker
    requires forall j :: 0 <= j < |high| ==> high[j].evidence.worker > w.evidence.worker
    ensures InOrder(low + [w] + high)
  {
    forall i | 0 <= i < |low| ensures low[i].evidence.worker <= w.evidence.worker {
      if i < |low| - 1 { assert low[i].evidence.worker <= low[|low| - 1].evidence.worker; }
    }
  }

  method InsertWorker(sorted: seq<TimedWorker>, w: TimedWorker) returns (r: seq<TimedWorker>)
    requires InOrder(sorted)
    ensures multiset(r) == multiset(sorted) + multiset{w} && InOrder(r)
  {
    var k := |sorted|;
    while k > 0 && sorted[k - 1].evidence.worker > w.evidence.worker
      invariant 0 <= k <= |sorted|
      invariant forall j :: k <= j < |sorted| ==> sorted[j].evidence.worker > w.evidence.worker
    {
      k := k - 1;
    }
    Halves(sorted, k);
    InsertedOrder(sorted[..k], w, sorted[k..]);
    Inserted(sorted, k, w);
    r := sorted[..k] + [w] + sorted[k..];
  }

  /** `sorted(workers, key=lambda worker: worker.index)`. */
  method SortWorkers(workers: seq<TimedWorker>) returns (sorted: seq<TimedWorker>)
    ensures multiset(sorted) == multiset(workers) && InOrder(sorted)
  {
    sorted := [];
    for i := 0 to |workers|
      invariant multiset(sorted) == multiset(workers[..i]) && InOrder(sorted)
    {
      assert workers[..i + 1] == workers[..i] + [workers[i]];
      sorted := InsertWorker(sorted, workers[i]);
    }
    assert workers[..|workers|] == workers;
  }

  /** `max(entries, key=lambda entry: (entry.busy, -entry.index))`. */
  predicate Longer(a: WorkerBusy, b: WorkerBusy) { a.busy > b.busy || (a.busy == b.busy && a.index < b.index) }

  method Critical(entries: seq<WorkerBusy>) returns (k: nat)
    requires entries != []
    requires forall i, j :: 0 <= i < j < |entries| ==> entries[i].index != entries[j].index
    ensures k < |entries| && forall i :: 0 <= i < |entries| && i != k ==> Longer(entries[k], entries[i])
  {
    k := 0;
    for i := 1 to |entries|
      invariant k < i
      invariant forall j :: 0 <= j < i && j != k ==> Longer(entries[k], entries[j])
    {
      if Longer(entries[i], entries[k]) { k := i; }
    }
  }

  ghost function JUnitTotal(entries: seq<WorkerBusy>): real {
    if entries == [] then 0.0 else JUnitTotal(entries[..|entries| - 1]) + entries[|entries| - 1].junitBusy
  }

  ghost function Evidences(workers: seq<TimedWorker>): (r: seq<WorkerEvidence>)
    ensures |r| == |workers| && forall i :: 0 <= i < |r| ==> r[i] == workers[i].evidence
  {
    seq(|workers|, i requires 0 <= i < |workers| => workers[i].evidence)
  }

  predicate DistinctWorkers(workers: seq<TimedWorker>) {
    forall i, j :: 0 <= i < j < |workers| ==> workers[i].evidence.worker != workers[j].evidence.worker
  }

  /** What the analysis of some workers is: each of them once, in index order, with the one that is busy longest. */
  ghost predicate IsAnalysis(a: Analysis, workers: seq<TimedWorker>, times: map<string, real>,
                             ordered: seq<TimedWorker>) {
    && multiset(ordered) == multiset(workers) && InOrder(ordered) && |a.workers| == |ordered|
    && (forall i :: 0 <= i < |ordered| ==> IsBusy(a.workers[i], ordered[i], times))
    && a.critical in a.workers
    && (forall b :: b in a.workers && b != a.critical ==> Longer(a.critical, b))
    && a.unattributed == TimeSum(times.Keys - UnionOf(ListsOf(Evidences(ordered))), times)
  }

  lemma SameLength(a: seq<TimedWorker>, b: seq<TimedWorker>)
    requires multiset(a) == multiset(b)
    ensures |a| == |b|
  {
    assert |multiset(a)| == |a| && |multiset(b)| == |b|;
  }

  method BusyEntries(workers: seq<TimedWorker>, times: map<string, real>) returns (entries: seq<WorkerBusy>)
    ensures |entries| == |workers| && forall i :: 0 <= i < |workers| ==> IsBusy(entries[i], workers[i], times)
  {
    entries := [];
    for i := 0 to |workers|
      invariant |entries| == i && forall j :: 0 <= j < i ==> IsBusy(entries[j], workers[j], times)
    {
      var b := BusyOf(workers[i], times);
      entries := entries + [b];
    }
  }

  lemma OneWith(workers: seq<TimedWorker>, v: TimedWorker, w: TimedWorker)
    requires DistinctWorkers(workers) && v in multiset(workers) && w in multiset(workers)
    requires v.evidence.worker == w.evidence.worker
    ensures v == w && multiset(workers)[v] == 1
  {
    var i :| 0 <= i < |workers| && workers[i] == v;
    var j :| 0 <= j < |workers| && workers[j] == w;
    var others := workers[..i] + workers[i + 1..];
    assert workers == workers[..i] + [v] + workers[i + 1..];
    forall k | 0 <= k < |others| ensures others[k] != v { assert others[k] == workers[if k < i then k else k + 1]; }
  }

  lemma TwiceIn(s: seq<TimedWorker>, i: nat, j: nat)
    requires i < j < |s| && s[i] == s[j]
    ensures multiset(s)[s[i]] >= 2
  {
    assert s == s[..i] + [s[i]] + s[i + 1..];
    assert s[j] in s[i + 1..];
  }

  /** Sorting keeps distinct indices distinct. */
  lemma StillDistinct(workers: seq<TimedWorker>, sorted: seq<TimedWorker>)
    requires DistinctWorkers(workers) && multiset(sorted) == multiset(workers)
    ensures DistinctWorkers(sorted)
  {
    forall i, j | 0 <= i < j < |sorted| ensures sorted[i].evidence.worker != sorted[j].evidence.worker {
      if sorted[i].evidence.worker == sorted[j].evidence.worker {
        OneWith(workers, sorted[i], sorted[j]);
        TwiceIn(sorted, i, j);
      }
    }
  }

  /** Seconds of the nodes that no worker executed. */
  method Unattributed(workers: seq<TimedWorker>, times: map<string, real>) returns (total: real)
    ensures total == TimeSum(times.Keys - UnionOf(ListsOf(Evidences(workers))), times)
  {
    var executed: set<string> := {};
    ghost var lists := ListsOf(Evidences(workers));
    for i := 0 to |workers|
      invariant executed == UnionOf(lists[..i])
    {
      assert lists[..i + 1][..i] == lists[..i];
      executed := executed + Elements(workers[i].evidence.executed);
    }
    assert lists[..|workers|] == lists;
    var left := map x | x in times && x !in executed :: times[x];
    total := SumTimes(left);
    assert left.Keys == times.Keys - executed;
    TimeSame(left.Keys, left, times);
  }

  method Analyse(workers: seq<TimedWorker>, times: map<string, real>)
    returns (r: Option<Analysis>, ghost ordered: seq<TimedWorker>)
    requires DistinctWorkers(workers)
    ensures r.None? <==> workers == []
    ensures r.Some? ==> IsAnalysis(r.value, workers, times, ordered)
  {
    var sorted := SortWorkers(workers);
    ordered := sorted;
    SameLength(sorted, workers);
    if sorted == [] { return None, []; }
    var entries := BusyEntries(sorted, times);
    StillDistinct(workers, sorted);
    var k := Critical(entries);
    var unattributed := Unattributed(sorted, times);
    r := Some(Analysis(entries, entries[k], unattributed));
  }

  // ---------------------------------------------------------------- conservation of an analysed run

  lemma {:induction false} BusyIsLists(entries: seq<WorkerBusy>, workers: seq<TimedWorker>, times: map<string, real>)
    requires |entries| == |workers| && forall i :: 0 <= i < |workers| ==> IsBusy(entries[i], workers[i], times)
    ensures JUnitTotal(entries) == ListsTime(ListsOf(Evidences(workers)), times)
  {
    if workers != [] {
      var n := |workers| - 1;
      BusyIsLists(entries[..n], workers[..n], times);
      assert ListsOf(Evidences(workers))[..n] == ListsOf(Evidences(workers[..n]));
    }
  }

  /** Everything the workers executed, with multiplicity. */
  ghost function RanBy(workers: seq<TimedWorker>): multiset<string> {
    if workers == [] then multiset{} else
      RanBy(workers[..|workers| - 1]) + multiset(workers[|workers| - 1].evidence.executed)
  }

  lemma {:induction false} RanIsAll(workers: seq<TimedWorker>)
    ensures RanBy(workers) == AllOf(ListsOf(Evidences(workers)))
  {
    if workers != [] {
      var n := |workers| - 1;
      RanIsAll(workers[..n]);
      assert ListsOf(Evidences(workers))[..n] == ListsOf(Evidences(workers[..n]));
    }
  }

  lemma {:induction false} RanWithout(workers: seq<TimedWorker>, i: nat)
    requires i < |workers|
    ensures RanBy(workers) == RanBy(Without(workers, i)) + multiset(workers[i].evidence.executed)
  {
    var n := |workers| - 1;
    if i == n {
      assert Without(workers, i) == workers[..n];
    } else {
      RanWithout(workers[..n], i);
      WithoutLast(workers, i);
    }
  }

  lemma {:induction false} RanPermuted(workers: seq<TimedWorker>, ordered: seq<TimedWorker>)
    requires multiset(workers) == multiset(ordered)
    ensures RanBy(workers) == RanBy(ordered)
  {
    SameLength(workers, ordered);
    if workers != [] {
      var i := TakeOut(workers, ordered);
      RanPermuted(workers[..|workers| - 1], Without(ordered, i));
      RanWithout(ordered, i);
    }
  }

  /** With nothing wrong with the evidence, the analysed workers' JUnit time and the unattributed time are the time
      of all nodes, which is that of all files and of all resolved testcases. */
  lemma AnalysisConserves(cases: seq<Testcase>, times: JUnitTimes, workers: seq<TimedWorker>, expected: map<nat, nat>,
                          collected: seq<string>, a: Analysis, ordered: seq<TimedWorker>)
    requires EvidenceSound(Evidences(workers), expected, collected) && Distinct(collected)
    requires times.nodeSeconds == TableOf(cases, Itself) && times.fileSeconds == TableOf(cases, NodeFile)
    requires IsAnalysis(a, workers, times.nodeSeconds, ordered)
    ensures JUnitTotal(a.workers) + a.unattributed ==
      TimeSum(times.nodeSeconds.Keys, times.nodeSeconds) == TimeSum(times.fileSeconds.Keys, times.fileSeconds) ==
        Resolved(cases)
  {
    SoundIsPartition(Evidences(workers), expected, collected);
    RanPermuted(workers, ordered);
    RanIsAll(workers);
    RanIsAll(ordered);
    BusyIsLists(a.workers, ordered, times.nodeSeconds);
    TimeConserved(cases, times, ListsOf(Evidences(ordered)), collected);
  }

  // ---------------------------------------------------------------- a believed block, value by value

  /** The place of an event in a worker's run. */
  function Position(name: EventName): nat {
    match name
    case PluginLoaded => 0
    case SessionStart => 1
    case CollectionFinished => 2
    case FirstTestStart => 3
    case LastTestEnd => 4
    case SessionFinish => 5
  }

  /** Every event is there, is a stamp or null, and no stamp is earlier than one before it in the run. */
  lemma EventsExactly(events: map<EventName, Stamp>)
    ensures EventsSound(events) <==>
      (forall name: EventName :: name in events && !events[name].Malformed?) &&
      forall e: EventName, f: EventName :: Position(e) < Position(f) && events[e].At? && events[f].At? ==>
        events[e].monotonic <= events[f].monotonic
  {
    forall name: EventName ensures EVENT_NAMES[Position(name)] == name { }
    forall i | 0 <= i < 6 ensures Position(EVENT_NAMES[i]) == i { }
    if EventsSound(events) {
      forall name: EventName ensures name in events && !events[name].Malformed? {
        assert EVENT_NAMES[Position(name)] in events;
      }
      forall e: EventName, f: EventName | Position(e) < Position(f) && events[e].At? && events[f].At?
        ensures events[e].monotonic <= events[f].monotonic
      {
        assert StampsOf(events, EVENT_NAMES)[Position(e)] == events[e];
        assert StampsOf(events, EVENT_NAMES)[Position(f)] == events[f];
      }
    }
    if (forall name: EventName :: name in events && !events[name].Malformed?) &&
       forall e: EventName, f: EventName :: Position(e) < Position(f) && events[e].At? && events[f].At? ==>
         events[e].monotonic <= events[f].monotonic
    {
      forall i, j | 0 <= i < j < 6 && StampsOf(events, EVENT_NAMES)[i].At? && StampsOf(events, EVENT_NAMES)[j].At?
        ensures StampsOf(events, EVENT_NAMES)[i].monotonic <= StampsOf(events, EVENT_NAMES)[j].monotonic
      {
        assert Position(EVENT_NAMES[i]) < Position(EVENT_NAMES[j]);
      }
    }
  }

  /** Where the nodes of a file stand in the worker's list. */
  function PlacesOf(executed: seq<string>, file: string): set<nat> {
    set i: nat | i < |executed| && NodeFile(executed[i]) == file
  }

  lemma PlacesStep(executed: seq<string>, file: string)
    requires executed != []
    ensures var n := |executed| - 1;
      PlacesOf(executed, file) == PlacesOf(executed[..n], file) + if NodeFile(executed[n]) == file then {n} else {}
  {
  }

  lemma {:induction false} NodesCounted(executed: seq<string>, file: string)
    ensures NodesIn(executed, file) == |PlacesOf(executed, file)|
  {
    if executed == [] {
      assert PlacesOf(executed, file) == {};
    } else {
      NodesCounted(executed[..|executed| - 1], file);
      PlacesStep(executed, file);
    }
  }

  /** What the entry of an executed file must say. */
  ghost predicate EntryStands(e: FileEntry, executed: seq<string>, file: string, start: real, end: real) {
    && e.seconds.Some? && e.seconds.value >= 0.0
    && e.nodeCount == Some(|PlacesOf(executed, file)|)
    && e.first.At? && e.last.At?
    && start <= e.first.monotonic && e.first.monotonic <= e.last.monotonic && e.last.monotonic <= end
  }

  /** The entries stand, and all of them together fit between the first test and the last, with 0.02 s to spare. */
  ghost predicate SpanStands(files: map<string, FileEntry>, executed: seq<string>, start: real, end: real) {
    && (forall f :: f in files ==> EntryStands(files[f], executed, f, start, end))
    && TimeSum(files.Keys, FileSeconds(files, files.Keys)) <= end - start + 0.02
  }

  lemma SpanFits(files: map<string, FileEntry>, executed: seq<string>, first: Stamp, last: Stamp)
    requires first.At? && last.At? && files.Keys == FilesOf(executed)
    ensures FitsSpan(files, executed, first, last) <==> SpanStands(files, executed, first.monotonic, last.monotonic)
  {
    forall f | f in files
      ensures EntryFits(files[f], NodesIn(executed, f), first.monotonic, last.monotonic) <==>
        EntryStands(files[f], executed, f, first.monotonic, last.monotonic)
    {
      NodesCounted(executed, f);
    }
  }

  /** A block is believed exactly when its version is 1, its events are in order, its files are the executed ones, and
      their entries stand between the first test and the last. */
  lemma BelievedExactly(b: TimingBlock, executed: seq<string>)
    ensures Believed(b, executed) <==>
      && b.version == 1 && EventsSound(b.events)
      && b.files.Keys == (set i | 0 <= i < |executed| :: NodeFile(executed[i]))
      && (executed != [] ==>
            FirstTestStart in b.events && LastTestEnd in b.events &&
            b.events[FirstTestStart].At? && b.events[LastTestEnd].At? &&
            SpanStands(b.files, executed, b.events[FirstTestStart].monotonic, b.events[LastTestEnd].monotonic))
  {
    assert (set i | 0 <= i < |executed| :: NodeFile(executed[i])) == FilesOf(executed);
    if executed == [] {
      assert FilesOf(executed) == {};
    } else if FirstTestStart in b.events && LastTestEnd in b.events && b.files.Keys == FilesOf(executed) {
      var first, last := b.events[FirstTestStart], b.events[LastTestEnd];
      if first.At? && last.At? { SpanFits(b.files, executed, first, last); }
    }
  }

  /** The seconds read are those of the entries. */
  lemma SecondsRead(files: map<string, FileEntry>, f: string)
    requires f in files && files[f].seconds.Some?
    ensures f in FileSeconds(files, files.Keys) && FileSeconds(files, files.Keys)[f] == files[f].seconds.value
  {
  }
}
