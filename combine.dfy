/** Combining the transformed records of several nodes into one result per
    tool: syscount samples grouped by call, runqlat and biolatency
    histograms as a heatmap, biosnoop averages side by side, and execsnoop
    rows concatenated. Each record's `data` must have its tool's shape; a
    record of another shape raises KeyError, as the dictionary lookups of
    the source do. */
module Combine {
  import opened Errors
  import opened Text
  import opened Transform
  import opened LambdaTransform

  // ----- syscount -----

  /** `data[call]`: the nodes and latencies recorded for one call, side by side. */
  datatype Entry = Entry(nodes: seq<string>, latencies: seq<real>)

  /** The defaultdict of combine_syscount: its keys in insertion order and its contents. */
  datatype SyscountCalls = SyscountCalls(order: seq<string>, entries: map<string, Entry>)

  /** One `(node, call, latency)` triple the inner loop visits. */
  datatype Sample = Sample(node: string, call: string, latency: real)

  /** The triples of one record, in call order (lines 45-48). `latencies[i]`
      past the end raises IndexError; data of another shape raises KeyError. */
  function RecordSamples(res: Record): (r: Result<seq<Sample>>)
    ensures r.Ok? ==> res.data.SyscountData? && |r.value| == |res.data.syscalls.calls|
  {
    if !res.data.SyscountData? then Err(KeyError)
    else
      var t := res.data.syscalls;
      if |t.latencies| < |t.calls| then Err(IndexError)
      else Ok(SamplesUpTo(res.node, t.calls, t.latencies, |t.calls|))
  }

  /** The first `j` triples of one record. */
  function SamplesUpTo(node: string, calls: seq<string>, latencies: seq<real>, j: nat): (r: seq<Sample>)
    requires j <= |calls| && j <= |latencies|
    ensures |r| == j
    ensures forall k :: 0 <= k < j ==> r[k] == Sample(node, calls[k], latencies[k])
  {
    seq(j, k requires 0 <= k < j => Sample(node, calls[k], latencies[k]))
  }

  /** The triples of all records, in input order; the first failing record's error. */
  function AllSamples(results: seq<Record>): (r: Result<seq<Sample>>)
    decreases |results|
  {
    if results == [] then Ok([])
    else
      match AllSamples(Init(results))
      case Err(e) => Err(e)
      case Ok(ss) =>
        match RecordSamples(Last(results))
        case Err(e) => Err(e)
        case Ok(more) => Ok(ss + more)
  }

  /** One iteration of the inner loop: append the node and the latency to the call's entry. */
  function AddSample(c: SyscountCalls, s: Sample): SyscountCalls
  {
    var e := if s.call in c.entries then c.entries[s.call] else Entry([], []);
    SyscountCalls(if s.call in c.entries then c.order else c.order + [s.call],
                  c.entries[s.call := Entry(e.nodes + [s.node], e.latencies + [s.latency])])
  }

  /** The dictionary after the triples `ss`, in order. */
  function Grouped(ss: seq<Sample>): SyscountCalls
    decreases |ss|
  {
    if ss == [] then SyscountCalls([], map[])
    else AddSample(Grouped(Init(ss)), Last(ss))
  }

  function CombineSyscountSpec(results: seq<Record>): Result<SyscountCalls>
  {
    match AllSamples(results)
    case Err(e) => Err(e)
    case Ok(ss) => Ok(Grouped(ss))
  }

  lemma {:induction false} AllSamplesErrSticky(p: seq<Record>, q: seq<Record>)
    requires AllSamples(p).Err?
    ensures AllSamples(p + q) == AllSamples(p)
    decreases |q|
  {
    if q == [] {
      assert p + q == p;
    } else {
      assert Init(p + q) == p + Init(q);
      AllSamplesErrSticky(p, Init(q));
    }
  }

  lemma AllSamplesStops(results: seq<Record>, i: nat)
    requires i < |results| && AllSamples(results[..i + 1]).Err?
    ensures AllSamples(results) == AllSamples(results[..i + 1])
  {
    AllSamplesErrSticky(results[..i + 1], results[i + 1..]);
    assert results[..i + 1] + results[i + 1..] == results;
  }

  method CombineSyscount(results: seq<Record>) returns (r: Result<SyscountCalls>)
    ensures r == CombineSyscountSpec(results)
  {
    var data := SyscountCalls([], map[]);
    ghost var done: seq<Sample> := [];
    for i := 0 to |results|
      invariant AllSamples(results[..i]) == Ok(done)
      invariant data == Grouped(done)
    {
      assert Init(results[..i + 1]) == results[..i] && Last(results[..i + 1]) == results[i];
      var next := AddRecord(data, done, results[i]);
      if next.Err? {
        AllSamplesStops(results, i);
        return Err(next.error);
      }
      data := next.value;
      done := done + RecordSamples(results[i]).value;
    }
    assert results[..|results|] == results;
    return Ok(data);
  }

  /** One iteration of the outer loop (lines 45-48): the record's triples
      added in call order. */
  method AddRecord(data: SyscountCalls, ghost done: seq<Sample>, res: Record) returns (r: Result<SyscountCalls>)
    requires data == Grouped(done)
    ensures RecordSamples(res).Err? ==> r == Err(RecordSamples(res).error)
    ensures RecordSamples(res).Ok? ==> r == Ok(Grouped(done + RecordSamples(res).value))
  {
    if !res.data.SyscountData? {
      return Err(KeyError);
    }
    var calls, latencies := res.data.syscalls.calls, res.data.syscalls.latencies;
    var acc := data;
    ghost var seen := done;
    var j := 0;
    while j < |calls|
      invariant j <= |calls| && j <= |latencies|
      invariant seen == done + SamplesUpTo(res.node, calls, latencies, j)
      invariant acc == Grouped(seen)
    {
      if j >= |latencies| {
        return Err(IndexError);
      }
      var s := Sample(res.node, calls[j], latencies[j]);
      GroupedSnoc(seen, s);
      SamplesUpToSnoc(res.node, calls, latencies, j);
      acc := AddSample(acc, s);
      seen := seen + [s];
      j := j + 1;
    }
    return Ok(acc);
  }

  lemma GroupedSnoc(ss: seq<Sample>, s: Sample)
    ensures Grouped(ss + [s]) == AddSample(Grouped(ss), s)
  {
    assert Init(ss + [s]) == ss && Last(ss + [s]) == s;
  }

  lemma SamplesUpToSnoc(node: string, calls: seq<string>, latencies: seq<real>, j: nat)
    requires j < |calls| && j < |latencies|
    ensures SamplesUpTo(node, calls, latencies, j + 1)
            == SamplesUpTo(node, calls, latencies, j) + [Sample(node, calls[j], latencies[j])]
  {
  }

  /** The triples of `ss` with the call `call`, in order. */
  function CallSamples(ss: seq<Sample>, call: string): seq<Sample>
    decreases |ss|
  {
    if ss == [] then []
    else CallSamples(Init(ss), call) + (if Last(ss).call == call then [Last(ss)] else [])
  }

  function NodesOf(ss: seq<Sample>): (r: seq<string>)
    ensures |r| == |ss| && forall k :: 0 <= k < |ss| ==> r[k] == ss[k].node
  {
    seq(|ss|, k requires 0 <= k < |ss| => ss[k].node)
  }

  function LatenciesOf(ss: seq<Sample>): (r: seq<real>)
    ensures |r| == |ss| && forall k :: 0 <= k < |ss| ==> r[k] == ss[k].latency
  {
    seq(|ss|, k requires 0 <= k < |ss| => ss[k].latency)
  }

  function CallsOf(ss: seq<Sample>): (r: seq<string>)
    ensures |r| == |ss| && forall k :: 0 <= k < |ss| ==> r[k] == ss[k].call
  {
    seq(|ss|, k requires 0 <= k < |ss| => ss[k].call)
  }

  /** The keys are the calls seen, each once; `GroupedFirstAppearance`
      gives their order. */
  lemma {:induction false} GroupedKeys(ss: seq<Sample>)
    ensures var g := Grouped(ss);
      Distinct(g.order) &&
      (forall c :: c in g.entries <==> c in g.order) &&
      (forall c :: c in g.entries <==> exists k :: 0 <= k < |ss| && ss[k].call == c)
    decreases |ss|
  {
    if ss != [] {
      var p := Init(ss);
      var s := Last(ss);
      GroupedKeys(p);
      var g := Grouped(ss);
      forall c
        ensures c in g.entries <==> exists k :: 0 <= k < |ss| && ss[k].call == c
      {
        if c != s.call && c in g.entries {
          var k :| 0 <= k < |p| && p[k].call == c;
          assert ss[k] == p[k];
        }
        if c != s.call && exists k :: 0 <= k < |ss| && ss[k].call == c {
          var k :| 0 <= k < |ss| && ss[k].call == c;
          assert k < |p| && p[k] == ss[k];
        }
        if c == s.call {
          assert ss[|ss| - 1].call == c;
        }
      }
    }
  }

  /** The defaultdict inserts each call when it is first seen, so its key
      order is the calls without repeats, first copies kept. */
  lemma {:induction false} GroupedOrder(ss: seq<Sample>)
    ensures Grouped(ss).order == Dedup(CallsOf(ss))
    decreases |ss|
  {
    if ss != [] {
      var p := Init(ss);
      var s := Last(ss);
      var calls := CallsOf(ss);
      var g0 := Grouped(p);
      GroupedOrder(p);
      KeysAreOrder(p, s.call);
      assert Grouped(ss) == AddSample(g0, s);
      CallsOfStep(ss);
      var d := Dedup(CallsOf(p));
      assert Dedup(calls) == if s.call in d then d else d + [s.call];
    }
  }

  lemma CallsOfStep(ss: seq<Sample>)
    requires ss != []
    ensures var calls := CallsOf(ss);
      calls[..|calls| - 1] == CallsOf(Init(ss)) && calls[|calls| - 1] == Last(ss).call
  {
  }

  lemma KeysAreOrder(ss: seq<Sample>, c: string)
    ensures c in Grouped(ss).entries <==> c in Grouped(ss).order
  {
    GroupedKeys(ss);
  }

  /** The keys come in order of first appearance: a call precedes another
      only if some triple has it before any triple of the other. */
  lemma GroupedFirstAppearance(ss: seq<Sample>)
    ensures FirstOccurrenceOrder(CallsOf(ss), Grouped(ss).order)
  {
    GroupedOrder(ss);
    DedupFirstOccurrence(CallsOf(ss));
  }

  /** Each call's entry lists, in input order, the node and the latency of
      every triple with that call, so `node` and `latencies` have equal
      length and pair up by position. */
  lemma {:induction false} GroupedEntries(ss: seq<Sample>)
    ensures var g := Grouped(ss);
      forall c :: c in g.entries ==>
        g.entries[c] == Entry(NodesOf(CallSamples(ss, c)), LatenciesOf(CallSamples(ss, c)))
    decreases |ss|
  {
    if ss != [] {
      var p := Init(ss);
      var s := Last(ss);
      GroupedEntries(p);
      var g0 := Grouped(p);
      var g := Grouped(ss);
      forall c | c in g.entries
        ensures g.entries[c] == Entry(NodesOf(CallSamples(ss, c)), LatenciesOf(CallSamples(ss, c)))
      {
        if c == s.call {
          if c !in g0.entries {
            GroupedKeys(p);
            CallSamplesEmpty(p, c);
          }
          EntryAppend(CallSamples(p, c), s);
        }
      }
    }
  }

  lemma EntryAppend(ss: seq<Sample>, s: Sample)
    ensures NodesOf(ss + [s]) == NodesOf(ss) + [s.node]
    ensures LatenciesOf(ss + [s]) == LatenciesOf(ss) + [s.latency]
  {
  }

  /** A call that no triple has gathers no triple. */
  lemma {:induction false} CallSamplesEmpty(ss: seq<Sample>, call: string)
    requires forall k :: 0 <= k < |ss| ==> ss[k].call != call
    ensures CallSamples(ss, call) == []
    decreases |ss|
  {
    if ss != [] {
      CallSamplesEmpty(Init(ss), call);
    }
  }

  /** The number of entries under the keys `order`. */
  function EntryCount(order: seq<string>, entries: map<string, Entry>): nat
    decreases |order|
  {
    if order == [] then 0
    else EntryCount(Init(order), entries) + (if Last(order) in entries then |entries[Last(order)].nodes| else 0)
  }

  /** Adding one node under a key counted once adds one to the count. */
  lemma {:induction false} EntryCountAdd(order: seq<string>, entries: map<string, Entry>, c: string, e: Entry)
    requires Distinct(order) && c in order && c in entries && |e.nodes| == |entries[c].nodes| + 1
    ensures EntryCount(order, entries[c := e]) == EntryCount(order, entries) + 1
    decreases |order|
  {
    if Last(order) == c {
      assert c !in Init(order) by {
        assert forall k :: 0 <= k < |order| - 1 ==> Init(order)[k] != order[|order| - 1];
      }
      EntryCountSame(Init(order), entries, c, e);
    } else {
      EntryCountAdd(Init(order), entries, c, e);
    }
  }

  lemma {:induction false} EntryCountSame(order: seq<string>, entries: map<string, Entry>, c: string, e: Entry)
    requires c !in order
    ensures EntryCount(order, entries[c := e]) == EntryCount(order, entries)
    decreases |order|
  {
    if order != [] {
      EntryCountSame(Init(order), entries, c, e);
    }
  }

  /** Each triple becomes exactly one entry: the entries over all calls number
      as many as the triples. */
  lemma {:induction false} GroupedCount(ss: seq<Sample>)
    ensures var g := Grouped(ss); EntryCount(g.order, g.entries) == |ss|
    decreases |ss|
  {
    if ss != [] {
      var p := Init(ss);
      var s := Last(ss);
      GroupedCount(p);
      GroupedKeys(p);
      var g0 := Grouped(p);
      var e := if s.call in g0.entries then g0.entries[s.call] else Entry([], []);
      var e' := Entry(e.nodes + [s.node], e.latencies + [s.latency]);
      if s.call in g0.entries {
        EntryCountAdd(g0.order, g0.entries, s.call, e');
      } else {
        EntryCountSame(g0.order, g0.entries, s.call, e');
        var order := g0.order + [s.call];
        assert Init(order) == g0.order && Last(order) == s.call;
      }
    }
  }

  /** The total number of calls the records hold. */
  function CallCount(results: seq<Record>): nat
    decreases |results|
  {
    if results == [] then 0
    else
      var last := Last(results);
      CallCount(Init(results)) + (if last.data.SyscountData? then |last.data.syscalls.calls| else 0)
  }

  /** A successful combine holds one entry per call of every record. */
  lemma {:induction false} AllSamplesCount(results: seq<Record>)
    requires AllSamples(results).Ok?
    ensures |AllSamples(results).value| == CallCount(results)
    decreases |results|
  {
    if results != [] {
      AllSamplesCount(Init(results));
    }
  }

  /** combine_syscount fails exactly when some record is not a syscount table
      or has fewer latencies than calls. */
  lemma {:induction false} AllSamplesSucceeds(results: seq<Record>)
    ensures AllSamples(results).Ok? <==>
      forall k :: 0 <= k < |results| ==>
        results[k].data.SyscountData? &&
        |results[k].data.syscalls.latencies| >= |results[k].data.syscalls.calls|
    decreases |results|
  {
    if results != [] {
      var p := Init(results);
      AllSamplesSucceeds(p);
      assert forall k :: 0 <= k < |p| ==> results[k] == p[k];
      assert results[|results| - 1] == Last(results);
    }
  }

  // ----- heatmap (runqlat and biolatency) -----

  /** `x_ticks`, `y_ticks` and `node_data` after the first loop of combine_heatmap. */
  datatype Axes = Axes(xTicks: seq<string>, yTicks: seq<string>, nodeData: seq<seq<int>>)

  /** The returned dictionary: `data` has one row per y tick and one column per node. */
  datatype Heatmap = Heatmap(xTicks: seq<string>, yTicks: seq<string>, data: seq<seq<int>>)

  /** The first loop (lines 59-65) over `results`, in order: every node name
      becomes an x tick, a strictly longer bin list replaces the y ticks, and
      every count list is kept. A record that is not a histogram raises KeyError. */
  function HeatmapAxes(results: seq<Record>): (r: Result<Axes>)
    ensures r.Err? ==> r.error == KeyError
    ensures r.Ok? ==> |r.value.xTicks| == |r.value.nodeData| == |results|
    decreases |results|
  {
    if results == [] then Ok(Axes([], [], []))
    else
      match HeatmapAxes(Init(results))
      case Err(e) => Err(e)
      case Ok(a) =>
        var res := Last(results);
        if !res.data.HistogramData? then Err(KeyError)
        else
          var h := res.data.histogram;
          Ok(Axes(a.xTicks + [res.node],
                  if |a.yTicks| < |h.bins| then h.bins else a.yTicks,
                  a.nodeData + [h.counts]))
  }

  /** Row `j` of column `dist`: the counts zero-padded at the end to `height`
      and then reversed (lines 69-75). */
  function HeatCell(height: nat, dist: seq<int>, j: nat): int
    requires j < height
  {
    var p := height - 1 - j;
    if p < |dist| then dist[p] else 0
  }

  /** The matrix the second loop fills, column by column. */
  function HeatMatrix(height: nat, nodeData: seq<seq<int>>): (m: seq<seq<int>>)
    ensures |m| == height && forall j :: 0 <= j < height ==> |m[j]| == |nodeData|
  {
    seq(height, j requires 0 <= j < height =>
      seq(|nodeData|, idx requires 0 <= idx < |nodeData| => HeatCell(height, nodeData[idx], j)))
  }

  /** combine_heatmap. `np.pad` with a negative width (a count list longer
      than the y ticks) raises ValueError. */
  function HeatmapSpec(results: seq<Record>): (r: Result<Heatmap>)
    ensures r.Err? ==> r.error == KeyError || r.error == ValueError
  {
    match HeatmapAxes(results)
    case Err(e) => Err(e)
    case Ok(a) =>
      if exists k :: 0 <= k < |a.nodeData| && |a.nodeData[k]| > |a.yTicks| then Err(ValueError)
      else Ok(Heatmap(a.xTicks, a.yTicks, HeatMatrix(|a.yTicks|, a.nodeData)))
  }

  lemma {:induction false} HeatmapAxesErrSticky(p: seq<Record>, q: seq<Record>)
    requires HeatmapAxes(p).Err?
    ensures HeatmapAxes(p + q) == HeatmapAxes(p)
    decreases |q|
  {
    if q == [] {
      assert p + q == p;
    } else {
      assert Init(p + q) == p + Init(q);
      HeatmapAxesErrSticky(p, Init(q));
    }
  }

  method CombineHeatmap(results: seq<Record>) returns (r: Result<Heatmap>)
    ensures r == HeatmapSpec(results)
  {
    var xTicks: seq<string> := [];
    var yTicks: seq<string> := [];
    var nodeData: seq<seq<int>> := [];
    for i := 0 to |results|
      invariant HeatmapAxes(results[..i]) == Ok(Axes(xTicks, yTicks, nodeData))
    {
      var res := results[i];
      assert Init(results[..i + 1]) == results[..i] && Last(results[..i + 1]) == res;
      if !res.data.HistogramData? {
        HeatmapAxesErrSticky(results[..i + 1], results[i + 1..]);
        assert results[..i + 1] + results[i + 1..] == results;
        return Err(KeyError);
      }
      xTicks := xTicks + [res.node];
      if |yTicks| < |res.data.histogram.bins| {
        yTicks := res.data.histogram.bins;
      }
      nodeData := nodeData + [res.data.histogram.counts];
    }
    assert results[..|results|] == results;
    var data := FillMatrix(|yTicks|, nodeData);
    if data.Err? {
      return Err(data.error);
    }
    return Ok(Heatmap(xTicks, yTicks, data.value));
  }

  /** The second loop (lines 67-76): a zero matrix of `height` rows and one
      column per count list, each column filled in turn; a count list longer
      than `height` makes `np.pad` raise ValueError. */
  method FillMatrix(height: nat, nodeData: seq<seq<int>>) returns (r: Result<seq<seq<int>>>)
    ensures r == if exists k :: 0 <= k < |nodeData| && |nodeData[k]| > height then Err(ValueError)
                 else Ok(HeatMatrix(height, nodeData))
  {
    var m := new int[height, |nodeData|]((j, idx) => 0);
    for idx := 0 to |nodeData|
      invariant forall k :: 0 <= k < idx ==> |nodeData[k]| <= height
      invariant forall j, b :: 0 <= j < height && 0 <= b < |nodeData| ==>
        m[j, b] == if b < idx then HeatCell(height, nodeData[b], j) else 0
    {
      var dist := nodeData[idx];
      if height < |dist| {
        return Err(ValueError);
      }
      FillColumn(m, idx, dist);
    }
    var data := seq(height, j requires 0 <= j < height reads m =>
      seq(|nodeData|, b requires 0 <= b < |nodeData| reads m => m[j, b]));
    forall j | 0 <= j < height
      ensures data[j] == HeatMatrix(height, nodeData)[j]
    {
      assert forall b :: 0 <= b < |nodeData| ==> data[j][b] == HeatCell(height, nodeData[b], j);
    }
    assert data == HeatMatrix(height, nodeData);
    return Ok(data);
  }

  /** `data[:, idx] = dist_arr[::-1]`: the padded, reversed counts written into
      column `idx`; every other column is left as it was. */
  method FillColumn(m: array2<int>, idx: nat, dist: seq<int>)
    requires idx < m.Length1 && |dist| <= m.Length0
    modifies m
    ensures forall j, b :: 0 <= j < m.Length0 && 0 <= b < m.Length1 ==>
      m[j, b] == if b == idx then HeatCell(m.Length0, dist, j) else old(m[j, b])
  {
    for j := 0 to m.Length0
      invariant forall a, b :: 0 <= a < m.Length0 && 0 <= b < m.Length1 ==>
        m[a, b] == if b == idx && a < j then HeatCell(m.Length0, dist, a) else old(m[a, b])
    {
      m[j, idx] := HeatCell(m.Length0, dist, j);
    }
  }

  /** The x ticks are the node names in input order and there is one count
      list per record, in input order. */
  lemma {:induction false} HeatmapAxesNodes(results: seq<Record>)
    requires HeatmapAxes(results).Ok?
    ensures var a := HeatmapAxes(results).value;
      forall k :: 0 <= k < |results| ==>
        results[k].data.HistogramData? && a.xTicks[k] == results[k].node &&
        a.nodeData[k] == results[k].data.histogram.counts
    decreases |results|
  {
    if results != [] {
      var p := Init(results);
      HeatmapAxesNodes(p);
      assert forall k :: 0 <= k < |p| ==> results[k] == p[k];
      assert results[|results| - 1] == Last(results);
    }
  }

  /** No bin list is longer than the y ticks, which stay empty without records. */
  lemma {:induction false} HeatmapYTicksLongest(results: seq<Record>)
    requires HeatmapAxes(results).Ok?
    ensures var a := HeatmapAxes(results).value;
      (forall k :: 0 <= k < |results| ==>
         results[k].data.HistogramData? && |results[k].data.histogram.bins| <= |a.yTicks|) &&
      (results == [] ==> a.yTicks == [])
    decreases |results|
  {
    if results != [] {
      var p := Init(results);
      HeatmapYTicksLongest(p);
      HeatmapAxesNodes(results);
      assert forall k :: 0 <= k < |p| ==> results[k] == p[k];
      assert results[|results| - 1] == Last(results);
    }
  }

  /** The y ticks are the bin list of the first record whose bin list is
      strictly longest: a later tie does not replace it. */
  lemma {:induction false} HeatmapYTicksFirst(results: seq<Record>)
    requires HeatmapAxes(results).Ok? && results != []
    ensures var a := HeatmapAxes(results).value;
      exists k :: 0 <= k < |results| && results[k].data.HistogramData? &&
        a.yTicks == results[k].data.histogram.bins &&
        (forall k' :: 0 <= k' < k ==>
           results[k'].data.HistogramData? && |results[k'].data.histogram.bins| < |a.yTicks|)
    decreases |results|
  {
    var p := Init(results);
    var a0 := HeatmapAxes(p).value;
    var a := HeatmapAxes(results).value;
    var h := Last(results).data.histogram;
    assert forall k :: 0 <= k < |p| ==> results[k] == p[k];
    assert results[|results| - 1] == Last(results);
    HeatmapAxesNodes(results);
    if |a0.yTicks| < |h.bins| {
      HeatmapYTicksLongest(p);
      assert forall k' :: 0 <= k' < |results| - 1 ==> |results[k'].data.histogram.bins| < |a.yTicks|;
    } else if p == [] {
      assert a.yTicks == [] == h.bins;
    } else {
      HeatmapYTicksFirst(p);
      var k :| 0 <= k < |p| && p[k].data.HistogramData? && a0.yTicks == p[k].data.histogram.bins &&
        (forall k' :: 0 <= k' < k ==> p[k'].data.HistogramData? && |p[k'].data.histogram.bins| < |a0.yTicks|);
      assert results[k] == p[k];
    }
  }

  /** The heatmap is built exactly when every record is a histogram whose
      count list fits the y ticks. */
  lemma {:induction false} HeatmapAxesSucceeds(results: seq<Record>)
    ensures HeatmapAxes(results).Ok? <==> forall k :: 0 <= k < |results| ==> results[k].data.HistogramData?
    decreases |results|
  {
    if results != [] {
      var p := Init(results);
      HeatmapAxesSucceeds(p);
      assert forall k :: 0 <= k < |p| ==> results[k] == p[k];
      assert results[|results| - 1] == Last(results);
    }
  }

  /** The matrix has one row per y tick and one column per node; column idx
      holds that node's counts bottom up — `data[len(y)-1-j][idx] == counts[j]`
      — and zeros above them. */
  lemma HeatmapCells(results: seq<Record>)
    requires HeatmapSpec(results).Ok?
    ensures var h := HeatmapSpec(results).value;
      |h.data| == |h.yTicks| && (forall j :: 0 <= j < |h.data| ==> |h.data[j]| == |results|) &&
      forall idx :: 0 <= idx < |results| ==>
        results[idx].data.HistogramData? && ColumnHolds(h.data, idx, results[idx].data.histogram.counts)
  {
    var a := HeatmapAxes(results).value;
    HeatmapAxesNodes(results);
    forall idx | 0 <= idx < |results|
      ensures ColumnHolds(HeatMatrix(|a.yTicks|, a.nodeData), idx, a.nodeData[idx])
    {
      assert |a.nodeData[idx]| <= |a.yTicks|;
      HeatMatrixColumn(|a.yTicks|, a.nodeData, idx);
    }
  }

  /** Column `idx` of `m` holds `counts` bottom up — `m[len(m)-1-j][idx] ==
      counts[j]` — and zeros above them. */
  predicate ColumnHolds(m: seq<seq<int>>, idx: nat, counts: seq<int>)
  {
    |counts| <= |m| && (forall j :: 0 <= j < |m| ==> idx < |m[j]|) &&
    (forall j :: 0 <= j < |counts| ==> m[|m| - 1 - j][idx] == counts[j]) &&
    (forall i :: 0 <= i < |m| - |counts| ==> m[i][idx] == 0)
  }

  lemma HeatMatrixColumn(height: nat, nodeData: seq<seq<int>>, idx: nat)
    requires idx < |nodeData| && |nodeData[idx]| <= height
    ensures ColumnHolds(HeatMatrix(height, nodeData), idx, nodeData[idx])
  {
  }

  predicate AllHistograms(results: seq<Record>)
  {
    forall k :: 0 <= k < |results| ==> results[k].data.HistogramData?
  }

  /** The length of the longest bin list. */
  function MaxBins(results: seq<Record>): nat
    decreases |results|
  {
    if results == [] then 0
    else
      var m := MaxBins(Init(results));
      var last := Last(results).data;
      if last.HistogramData? && m < |last.histogram.bins| then |last.histogram.bins| else m
  }

  /** Every count list is no longer than the longest bin list. */
  predicate CountsFit(results: seq<Record>)
    requires AllHistograms(results)
  {
    forall k :: 0 <= k < |results| ==> |results[k].data.histogram.counts| <= MaxBins(results)
  }

  /** The y ticks are as long as the longest bin list. */
  lemma {:induction false} YTicksMax(results: seq<Record>)
    requires HeatmapAxes(results).Ok?
    ensures |HeatmapAxes(results).value.yTicks| == MaxBins(results)
    decreases |results|
  {
    if results != [] {
      YTicksMax(Init(results));
    }
  }

  /** combine_heatmap fails exactly when a record is not a histogram (KeyError)
      or a count list is longer than every bin list (ValueError). */
  lemma HeatmapFails(results: seq<Record>)
    ensures HeatmapSpec(results).Ok? <==> AllHistograms(results) && CountsFit(results)
  {
    HeatmapAxesSucceeds(results);
    if HeatmapAxes(results).Ok? {
      HeatmapAxesNodes(results);
      YTicksMax(results);
    }
  }

  // ----- biosnoop -----

  /** `{"nodes": nodes, "data": {"read_avg_latency": ..., "write_avg_latency": ...}}`. */
  datatype BiosnoopNodes = BiosnoopNodes(nodes: seq<string>, readAvg: seq<real>, writeAvg: seq<real>)

  /** combine_biosnoop (lines 83-89): one position per record, in input order. */
  function BiosnoopCombineSpec(results: seq<Record>): (r: Result<BiosnoopNodes>)
    ensures r.Err? ==> r.error == KeyError
    decreases |results|
  {
    if results == [] then Ok(BiosnoopNodes([], [], []))
    else
      match BiosnoopCombineSpec(Init(results))
      case Err(e) => Err(e)
      case Ok(b) =>
        var res := Last(results);
        if !res.data.BiosnoopData? then Err(KeyError)
        else
          Ok(BiosnoopNodes(b.nodes + [res.node], b.readAvg + [res.data.averages.readAvg],
                           b.writeAvg + [res.data.averages.writeAvg]))
  }

  lemma {:induction false} BiosnoopCombineErrSticky(p: seq<Record>, q: seq<Record>)
    requires BiosnoopCombineSpec(p).Err?
    ensures BiosnoopCombineSpec(p + q) == BiosnoopCombineSpec(p)
    decreases |q|
  {
    if q == [] {
      assert p + q == p;
    } else {
      assert Init(p + q) == p + Init(q);
      BiosnoopCombineErrSticky(p, Init(q));
    }
  }

  method CombineBiosnoop(results: seq<Record>) returns (r: Result<BiosnoopNodes>)
    ensures r == BiosnoopCombineSpec(results)
  {
    var nodes: seq<string> := [];
    var readAvg: seq<real> := [];
    var writeAvg: seq<real> := [];
    for i := 0 to |results|
      invariant BiosnoopCombineSpec(results[..i]) == Ok(BiosnoopNodes(nodes, readAvg, writeAvg))
    {
      var res := results[i];
      assert Init(results[..i + 1]) == results[..i] && Last(results[..i + 1]) == res;
      if !res.data.BiosnoopData? {
        BiosnoopCombineErrSticky(results[..i + 1], results[i + 1..]);
        assert results[..i + 1] + results[i + 1..] == results;
        return Err(KeyError);
      }
      readAvg := readAvg + [res.data.averages.readAvg];
      writeAvg := writeAvg + [res.data.averages.writeAvg];
      nodes := nodes + [res.node];
    }
    assert results[..|results|] == results;
    return Ok(BiosnoopNodes(nodes, readAvg, writeAvg));
  }

  /** The combine succeeds exactly when every record holds biosnoop averages;
      then the three lists have one entry per record and position k holds
      record k's node and averages. */
  lemma {:induction false} BiosnoopCombineZip(results: seq<Record>)
    ensures var r := BiosnoopCombineSpec(results);
      (r.Ok? <==> forall k :: 0 <= k < |results| ==> results[k].data.BiosnoopData?) &&
      (r.Ok? ==>
         |r.value.nodes| == |r.value.readAvg| == |r.value.writeAvg| == |results| &&
         forall k :: 0 <= k < |results| ==>
           results[k].data.BiosnoopData? && r.value.nodes[k] == results[k].node &&
           r.value.readAvg[k] == results[k].data.averages.readAvg &&
           r.value.writeAvg[k] == results[k].data.averages.writeAvg)
    decreases |results|
  {
    if results != [] {
      var p := Init(results);
      BiosnoopCombineZip(p);
      assert forall k :: 0 <= k < |p| ==> results[k] == p[k];
      assert results[|results| - 1] == Last(results);
    }
  }

  // ----- execsnoop -----

  /** One row of a data frame: its cell under each column name. */
  type Row = map<string, string>

  /** Every column of `c` is present and holds `n` cells. */
  predicate Uniform(c: Columns, n: nat)
  {
    forall k :: 0 <= k < |c.keys| ==> c.keys[k] in c.data && |c.data[c.keys[k]]| == n
  }

  /** `pd.DataFrame.from_dict(columns)`: row i maps each column name to its
      i-th cell. Columns of different lengths make pandas raise ValueError. */
  function FrameOf(c: Columns): (r: Result<seq<Row>>)
    ensures r.Err? ==> r.error == KeyError || r.error == ValueError
  {
    if exists k :: 0 <= k < |c.keys| && c.keys[k] !in c.data then Err(KeyError)
    else
      var n := if c.keys == [] then 0 else |c.data[c.keys[0]]|;
      if !Uniform(c, n) then Err(ValueError)
      else Ok(seq(n, i requires 0 <= i < n => map k | k in c.keys :: c.data[k][i]))
  }

  /** The frame gives the columns back: column `key` read down the rows is
      that column's list of cells. */
  lemma FrameOfColumns(c: Columns)
    requires FrameOf(c).Ok?
    ensures var rows := FrameOf(c).value;
      forall k :: 0 <= k < |c.keys| ==>
        var key := c.keys[k];
        key in c.data && |rows| == |c.data[key]| &&
        forall i :: 0 <= i < |rows| ==> key in rows[i] && rows[i][key] == c.data[key][i]
  {
  }

  /** combine_execsnoop (lines 30-34): each record's frame appended below the
      frames before it. */
  function ExecsnoopCombineSpec(results: seq<Record>): (r: Result<seq<Row>>)
    ensures r.Err? ==> r.error == KeyError || r.error == ValueError
    decreases |results|
  {
    if results == [] then Ok([])
    else
      match ExecsnoopCombineSpec(Init(results))
      case Err(e) => Err(e)
      case Ok(rows) =>
        match RecordFrame(Last(results))
        case Err(e) => Err(e)
        case Ok(more) => Ok(rows + more)
  }

  /** One record's frame; data of another shape raises KeyError. */
  function RecordFrame(res: Record): (r: Result<seq<Row>>)
    ensures r.Err? ==> r.error == KeyError || r.error == ValueError
  {
    if res.data.ExecsnoopData? then FrameOf(res.data.columns) else Err(KeyError)
  }

  lemma {:induction false} ExecsnoopCombineErrSticky(p: seq<Record>, q: seq<Record>)
    requires ExecsnoopCombineSpec(p).Err?
    ensures ExecsnoopCombineSpec(p + q) == ExecsnoopCombineSpec(p)
    decreases |q|
  {
    if q == [] {
      assert p + q == p;
    } else {
      assert Init(p + q) == p + Init(q);
      ExecsnoopCombineErrSticky(p, Init(q));
    }
  }

  method CombineExecsnoop(results: seq<Record>) returns (r: Result<seq<Row>>)
    ensures r == ExecsnoopCombineSpec(results)
  {
    var frame: seq<Row> := [];
    for i := 0 to |results|
      invariant ExecsnoopCombineSpec(results[..i]) == Ok(frame)
    {
      var res := results[i];
      assert Init(results[..i + 1]) == results[..i] && Last(results[..i + 1]) == res;
      var more := RecordFrame(res);
      if more.Err? {
        ExecsnoopCombineErrSticky(results[..i + 1], results[i + 1..]);
        assert results[..i + 1] + results[i + 1..] == results;
        return Err(more.error);
      }
      frame := frame + more.value;
    }
    assert results[..|results|] == results;
    return Ok(frame);
  }

  /** Both frames, the second below the first; the first error otherwise. */
  function Stack(top: Result<seq<Row>>, bottom: Result<seq<Row>>): Result<seq<Row>>
  {
    match top
    case Err(e) => Err(e)
    case Ok(a) =>
      match bottom
      case Err(e) => Err(e)
      case Ok(b) => Ok(a + b)
  }

  /** The frame of records `p + q` is the frame of `p` with the frame of `q`
      below it: rows are concatenated in input order, and the first failing
      record decides the error. */
  lemma {:induction false} ExecsnoopCombineAppend(p: seq<Record>, q: seq<Record>)
    ensures ExecsnoopCombineSpec(p + q) == Stack(ExecsnoopCombineSpec(p), ExecsnoopCombineSpec(q))
    decreases |q|
  {
    if q == [] {
      assert p + q == p;
      if ExecsnoopCombineSpec(p).Ok? {
        var a := ExecsnoopCombineSpec(p).value;
        assert a + [] == a;
      }
    } else {
      var q0, x := Init(q), Last(q);
      assert q == q0 + [x] && p + q == (p + q0) + [x];
      ExecsnoopCombineSnoc(q0, x);
      ExecsnoopCombineAppend(p, q0);
      ExecsnoopCombineSnoc(p + q0, x);
      var sp, sq0, fx := ExecsnoopCombineSpec(p), ExecsnoopCombineSpec(q0), RecordFrame(x);
      if sp.Ok? && sq0.Ok? && fx.Ok? {
        assert sp.value + (sq0.value + fx.value) == (sp.value + sq0.value) + fx.value;
      }
    }
  }

  lemma ExecsnoopCombineSnoc(rs: seq<Record>, x: Record)
    ensures ExecsnoopCombineSpec(rs + [x]) ==
      match ExecsnoopCombineSpec(rs)
      case Err(e) => Err(e)
      case Ok(rows) =>
        match RecordFrame(x)
        case Err(e) => Err(e)
        case Ok(more) => Ok(rows + more)
  {
    assert Init(rs + [x]) == rs && Last(rs + [x]) == x;
  }

  /** A single record's rows are its own frame. */
  lemma ExecsnoopCombineOne(res: Record)
    ensures ExecsnoopCombineSpec([res]) ==
      if res.data.ExecsnoopData? then FrameOf(res.data.columns) else Err(KeyError)
  {
    assert Init([res]) == [] && Last([res]) == res;
    if RecordFrame(res).Ok? {
      assert [] + RecordFrame(res).value == RecordFrame(res).value;
    }
  }

  // ----- dispatch -----

  /** What combine_ebpf returns for each tool. */
  datatype Combined =
    | ExecsnoopFrame(rows: seq<Row>)
    | SyscountGroups(calls: SyscountCalls)
    | HeatmapResult(heatmap: Heatmap)
    | BiosnoopResult(biosnoop: BiosnoopNodes)

  function WrapCombined<T>(r: Result<T>, f: T -> Combined): Result<Combined>
  {
    match r
    case Err(e) => Err(e)
    case Ok(v) => Ok(f(v))
  }

  /** combine_ebpf (lines 14-23): biolatency and runqlat both become a heatmap. */
  function CombineSpec(results: seq<Record>, script: string): Result<Combined>
  {
    if script == "execsnoop" then WrapCombined(ExecsnoopCombineSpec(results), f => ExecsnoopFrame(f))
    else if script == "syscount" then WrapCombined(CombineSyscountSpec(results), c => SyscountGroups(c))
    else if script == "biolatency" || script == "runqlat" then WrapCombined(HeatmapSpec(results), h => HeatmapResult(h))
    else if script == "biosnoop" then WrapCombined(BiosnoopCombineSpec(results), b => BiosnoopResult(b))
    else Err(InvalidScriptName)
  }

  method CombineEbpf(results: seq<Record>, script: string) returns (r: Result<Combined>)
    ensures r == CombineSpec(results, script)
  {
    if script == "execsnoop" {
      var f := CombineExecsnoop(results);
      return WrapCombined(f, f => ExecsnoopFrame(f));
    }
    if script == "syscount" {
      var c := CombineSyscount(results);
      return WrapCombined(c, c => SyscountGroups(c));
    }
    if script == "biolatency" || script == "runqlat" {
      var h := CombineHeatmap(results);
      return WrapCombined(h, h => HeatmapResult(h));
    }
    if script == "biosnoop" {
      var b := CombineBiosnoop(results);
      return WrapCombined(b, b => BiosnoopResult(b));
    }
    return Err(InvalidScriptName);
  }

  /** combine_ebpf rejects exactly the names outside the five tools, and the
      two histogram tools share one combiner. */
  lemma CombineRejectsUnknown(results: seq<Record>, script: string)
    ensures CombineSpec(results, script) == Err(InvalidScriptName) <==> script !in SCRIPTS
    ensures CombineSpec(results, "biolatency") == CombineSpec(results, "runqlat")
  {
    var r := CombineSpec(results, script);
    if script == "syscount" {
      var c := CombineSyscountSpec(results);
      assert c.Err? ==> c.error == KeyError || c.error == IndexError by {
        if AllSamples(results).Err? {
          AllSamplesErrors(results);
        }
      }
    }
  }

  lemma {:induction false} AllSamplesErrors(results: seq<Record>)
    ensures AllSamples(results).Err? ==> AllSamples(results).error == KeyError || AllSamples(results).error == IndexError
    decreases |results|
  {
    if results != [] {
      AllSamplesErrors(Init(results));
    }
  }
}
