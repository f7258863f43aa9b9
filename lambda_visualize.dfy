/** The visualization Lambda: it lists the transformed records of one date,
    keeps the `.json` ones whose file name names a queried node and one of
    the five tools, groups them per tool in listing order, combines each
    group, and stores the dashboard. The S3 listing, `get_object`,
    `json.loads`, the Plotly dashboard and `put_object` are not modelled:
    the listing with its decoded records is an input, the combined results
    and the dashboard key are the result. */
module LambdaVisualize {
  import opened Errors
  import opened Text
  import opened Transform
  import opened LambdaTransform
  import opened Combine

  const TRANSFORMED_PREFIX: string := "my_transformed_key"
  const VISUALIZATION_KEY: string := "my_visualization_key"

  /** `query["scripts"]`, set by the handler (line 46). */
  const QUERY_SCRIPTS: seq<string> := ["biolatency", "runqlat", "syscount", "execsnoop", "biosnoop"]

  /** The query message: a date and the nodes to show. */
  datatype Query = Query(date: string, nodeIds: seq<string>)

  /** One listed object with the record its body decodes to. */
  datatype Listed = Listed(key: string, record: Record)

  /** What a file name says: `<node_id>_<script_name>`. */
  datatype FileParts = FileParts(nodeId: string, scriptName: string)

  /** `key[key.rfind("/") + 1 : -5]`, with Python's slice rules: a stop before
      the start gives the empty string. */
  function FileName(key: string): (name: string)
    ensures |name| <= |key| && '/' !in name
  {
    var start := RFind(key, '/') + 1;
    var stop := if |key| >= 5 then |key| - 5 else 0;
    if start <= stop then key[start..stop] else ""
  }

  /** Lines 54-56: the script is the last `_`-piece, the node the others rejoined. */
  function ParseFileName(name: string): (r: FileParts)
    ensures '_' !in r.scriptName
  {
    var elements := Split(name, '_');
    FileParts(Join("_", Init(elements)), Last(elements))
  }

  /** The node name and the script name put back together. */
  lemma FileNameRoundTrip(node: string, script: string)
    requires '_' !in script
    ensures ParseFileName(node + "_" + script) == FileParts(node, script)
  {
    NamesOfBase(node, script);
  }

  /** The last `c` of `a + [c] + b` is at `|a|` when `b` holds none. */
  lemma {:induction false} RFindLast(a: string, c: char, b: string)
    requires c !in b
    ensures RFind(a + [c] + b, c) == |a|
    decreases |b|
  {
    var s := a + [c] + b;
    if b != [] {
      assert s[..|s| - 1] == a + [c] + b[..|b| - 1];
      assert b[|b| - 1] != c;
      RFindLast(a, c, b[..|b| - 1]);
    } else {
      assert s[|s| - 1] == c;
    }
  }

  /** The visualizer reads back the names the transformation wrote (line 37
      of the transformation Lambda), whenever the names hold no `/`. */
  lemma ReadsOutputPath(p: KeyParts)
    requires '/' !in p.timestamp && '/' !in p.nodeName && '/' !in p.scriptName && '_' !in p.scriptName
    ensures ParseFileName(FileName(OutputPath(p))) == FileParts(p.nodeName, p.scriptName)
  {
    var base := p.nodeName + "_" + p.scriptName;
    var dir := TRANSFORMED_KEY + p.timestamp;
    var key := OutputPath(p);
    assert key == dir + ['/'] + (base + ".json");
    assert '/' !in base + ".json";
    RFindLast(dir, '/', base + ".json");
    assert key[|dir| + 1..|key| - 5] == base;
    FileNameRoundTrip(p.nodeName, p.scriptName);
  }

  /** For every raw key the transformation accepts, the visualizer recovers
      the node and script names from the record's path. */
  lemma ReadsTransformedKey(key: string)
    requires ParseKey(key).Ok?
    ensures var p := ParseKey(key).value;
      ParseFileName(FileName(OutputPath(p))) == FileParts(p.nodeName, p.scriptName)
  {
    ParseKeyNames(key);
    ReadsOutputPath(ParseKey(key).value);
  }

  /** Lines 52 and 58: a `.json` key whose names are queried. */
  predicate Selected(key: string, nodeIds: seq<string>)
  {
    var parts := ParseFileName(FileName(key));
    EndsWith(key, ".json") && parts.nodeId in nodeIds && parts.scriptName in QUERY_SCRIPTS
  }

  /** `script_transformed_results`: the lists in key insertion order. */
  datatype Groups = Groups(order: seq<string>, lists: map<string, seq<Record>>)

  /** A `defaultdict(list)` read: a missing script has the empty list. */
  function ListOf(lists: map<string, seq<Record>>, script: string): seq<Record>
  {
    if script in lists then lists[script] else []
  }

  /** One iteration of the listing loop: append a selected record to its
      script's list. */
  function AddObject(g: Groups, obj: Listed, nodeIds: seq<string>): Groups
  {
    if !Selected(obj.key, nodeIds) then g
    else
      var script := ParseFileName(FileName(obj.key)).scriptName;
      var list := ListOf(g.lists, script);
      Groups(if script in g.lists then g.order else g.order + [script],
             g.lists[script := list + [obj.record]])
  }

  /** The groups after the listed objects `objects`, in listing order. */
  function GroupSpec(objects: seq<Listed>, nodeIds: seq<string>): Groups
    decreases |objects|
  {
    if objects == [] then Groups([], map[])
    else AddObject(GroupSpec(Init(objects), nodeIds), Last(objects), nodeIds)
  }

  method GroupObjects(objects: seq<Listed>, nodeIds: seq<string>) returns (g: Groups)
    ensures g == GroupSpec(objects, nodeIds)
  {
    g := Groups([], map[]);
    for i := 0 to |objects|
      invariant g == GroupSpec(objects[..i], nodeIds)
    {
      var obj := objects[i];
      assert Init(objects[..i + 1]) == objects[..i] && Last(objects[..i + 1]) == obj;
      if EndsWith(obj.key, ".json") {
        var elements := Split(FileName(obj.key), '_');
        var scriptName := Last(elements);
        var nodeId := Join("_", Init(elements));
        if nodeId in nodeIds && scriptName in QUERY_SCRIPTS {
          var list := ListOf(g.lists, scriptName);
          var order := if scriptName in g.lists then g.order else g.order + [scriptName];
          g := Groups(order, g.lists[scriptName := list + [obj.record]]);
        }
      }
    }
    assert objects[..|objects|] == objects;
  }

  /** The records of the selected objects of script `script`, in listing order. */
  function ScriptRecords(objects: seq<Listed>, nodeIds: seq<string>, script: string): seq<Record>
    decreases |objects|
  {
    if objects == [] then []
    else
      var last := Last(objects);
      ScriptRecords(Init(objects), nodeIds, script) +
        (if Selected(last.key, nodeIds) && ParseFileName(FileName(last.key)).scriptName == script
         then [last.record] else [])
  }

  /** The key order lists every group once, and only the five tools. */
  ghost predicate OrderedGroups(g: Groups)
  {
    Distinct(g.order) &&
    (forall s :: s in g.lists <==> s in g.order) &&
    (forall s :: s in g.lists ==> s in QUERY_SCRIPTS)
  }

  lemma AddObjectOrdered(g: Groups, obj: Listed, nodeIds: seq<string>)
    requires OrderedGroups(g)
    ensures OrderedGroups(AddObject(g, obj, nodeIds))
  {
    if Selected(obj.key, nodeIds) {
      var script := ParseFileName(FileName(obj.key)).scriptName;
      if script !in g.lists {
        var order := g.order + [script];
        assert forall i :: 0 <= i < |g.order| ==> order[i] == g.order[i] != script;
        assert Distinct(order);
      }
    }
  }

  lemma {:induction false} GroupOrder(objects: seq<Listed>, nodeIds: seq<string>)
    ensures OrderedGroups(GroupSpec(objects, nodeIds))
    decreases |objects|
  {
    if objects != [] {
      GroupOrder(Init(objects), nodeIds);
      AddObjectOrdered(GroupSpec(Init(objects), nodeIds), Last(objects), nodeIds);
    }
  }

  /** Each script's list is that script's selected records in listing order. */
  lemma {:induction false} GroupLists(objects: seq<Listed>, nodeIds: seq<string>)
    ensures var g := GroupSpec(objects, nodeIds);
      forall s :: ScriptRecords(objects, nodeIds, s) == ListOf(g.lists, s)
    decreases |objects|
  {
    if objects != [] {
      GroupLists(Init(objects), nodeIds);
    }
  }

  ghost predicate NonEmptyLists(lists: map<string, seq<Record>>)
  {
    forall s :: s in lists ==> lists[s] != []
  }

  /** No group is empty. */
  lemma {:induction false} GroupNonEmpty(objects: seq<Listed>, nodeIds: seq<string>)
    ensures NonEmptyLists(GroupSpec(objects, nodeIds).lists)
    decreases |objects|
  {
    if objects != [] {
      var init := Init(objects);
      GroupNonEmpty(init, nodeIds);
      var g0 := GroupSpec(init, nodeIds);

      var obj := Last(objects);
      var g := AddObject(g0, obj, nodeIds);
      assert GroupSpec(objects, nodeIds) == g;
      if Selected(obj.key, nodeIds) {
        var script := ParseFileName(FileName(obj.key)).scriptName;
        assert g.lists == g0.lists[script := ListOf(g0.lists, script) + [obj.record]];
        forall s | s in g.lists
          ensures g.lists[s] != []
        {
          if s == script {
            assert |g.lists[s]| >= 1;
          } else {
            assert s in g0.lists;
            assert g0.lists[s] != [];
            assert g.lists[s] == g0.lists[s];
          }
        }
      }
    }
  }

  /** A script gets a list exactly when some selected object names it; the
      list holds that script's selected records in listing order; every
      script with a list is one of the five tools and appears once in the
      key order. */
  lemma GroupMembers(objects: seq<Listed>, nodeIds: seq<string>)
    ensures var g := GroupSpec(objects, nodeIds);
      Distinct(g.order) &&
      (forall s :: s in g.lists <==> s in g.order) &&
      (forall s :: s in g.lists ==> s in QUERY_SCRIPTS) &&
      (forall s :: s in g.lists ==> g.lists[s] == ScriptRecords(objects, nodeIds, s)) &&
      (forall s :: s in g.lists <==> ScriptRecords(objects, nodeIds, s) != [])
  {
    GroupOrder(objects, nodeIds);
    GroupLists(objects, nodeIds);
    GroupNonEmpty(objects, nodeIds);
  }

  /** `script_combined_results`: one combined result per group key, in key order. */
  function CombineAllSpec(order: seq<string>, lists: map<string, seq<Record>>): (r: Result<map<string, Combined>>)
    ensures r.Ok? ==> r.value.Keys == set s | s in order
    decreases |order|
  {
    if order == [] then Ok(map[])
    else
      match CombineAllSpec(Init(order), lists)
      case Err(e) => Err(e)
      case Ok(m) =>
        var s := Last(order);
        match CombineSpec(ListOf(lists, s), s)
        case Err(e) => Err(e)
        case Ok(c) => Ok(m[s := c])
  }

  lemma {:induction false} CombineAllErrSticky(order: seq<string>, more: seq<string>, lists: map<string, seq<Record>>)
    requires CombineAllSpec(order, lists).Err?
    ensures CombineAllSpec(order + more, lists) == CombineAllSpec(order, lists)
    decreases |more|
  {
    if more == [] {
      assert order + more == order;
    } else {
      assert Init(order + more) == order + Init(more);
      CombineAllErrSticky(order, Init(more), lists);
    }
  }

  lemma CombineAllStep(order: seq<string>, lists: map<string, seq<Record>>, i: nat)
    requires i < |order| && CombineAllSpec(order[..i], lists).Ok?
    ensures var s := order[i];
      var c := CombineSpec(ListOf(lists, s), s);
      CombineAllSpec(order[..i + 1], lists) ==
        if c.Err? then Err(c.error) else Ok(CombineAllSpec(order[..i], lists).value[s := c.value])
  {
    assert Init(order[..i + 1]) == order[..i] && Last(order[..i + 1]) == order[i];
  }

  method CombineAll(g: Groups) returns (r: Result<map<string, Combined>>)
    ensures r == CombineAllSpec(g.order, g.lists)
  {
    var combined: map<string, Combined> := map[];
    for i := 0 to |g.order|
      invariant CombineAllSpec(g.order[..i], g.lists) == Ok(combined)
    {
      var script := g.order[i];
      CombineAllStep(g.order, g.lists, i);
      var c := CombineEbpf(ListOf(g.lists, script), script);
      if c.Err? {
        CombineAllErrSticky(g.order[..i + 1], g.order[i + 1..], g.lists);
        assert g.order[..i + 1] + g.order[i + 1..] == g.order;
        return Err(c.error);
      }
      combined := combined[script := c.value];
    }
    assert g.order[..|g.order|] == g.order;
    return Ok(combined);
  }

  /** What the handler stores: the dashboard key and the combined results it
      is drawn from. */
  datatype Dashboard = Dashboard(path: string, results: map<string, Combined>)

  /** The prefix the listing is filtered by (lines 43-45). */
  function ListingPrefix(date: string): string
  {
    TRANSFORMED_PREFIX + "/" + date + "/"
  }

  /** `f'{date}_visualization_on_epoch_{timestamp}.html'`: the dashboard's
      file name, `epoch` being the clock reading. */
  function DashboardFile(date: string, epoch: string): (name: string)
    ensures EndsWith(name, ".html")
  {
    date + "_visualization_on_epoch_" + epoch + ".html"
  }

  /** Line 70 as written: it names the dashboard with the loop variable
      `file_name`, the file name of the last listed `.json` key; without any
      such key the name is unbound and the handler raises. */
  function DestPathAsWritten(keys: seq<string>): Option<string>
    decreases |keys|
  {
    if keys == [] then None
    else if EndsWith(Last(keys), ".json") then Some(VISUALIZATION_KEY + "/" + FileName(Last(keys)))
    else DestPathAsWritten(Init(keys))
  }

  /** Whatever the listing held before it, a last `.json` key `dir/name.json`
      stores the dashboard as `name`, which lacks the `.html` of the file
      written; an empty listing leaves no name at all. */
  lemma DestPathAsWrittenMisnames(keys: seq<string>, dir: string, name: string)
    requires '/' !in name && '.' !in name
    ensures DestPathAsWritten(keys + [dir + "/" + name + ".json"]) == Some(VISUALIZATION_KEY + "/" + name)
    ensures !EndsWith(VISUALIZATION_KEY + "/" + name, ".html")
    ensures DestPathAsWritten([]) == None
  {
    var key := dir + "/" + name + ".json";
    JsonFileName(dir, name);
    assert Last(keys + [key]) == key;
    NoDotNoHtml(VISUALIZATION_KEY + "/" + name);
  }

  /** The file name of `dir/name.json`, read back. */
  lemma JsonFileName(dir: string, name: string)
    requires '/' !in name
    ensures var key := dir + "/" + name + ".json";
      EndsWith(key, ".json") && FileName(key) == name
  {
    SuffixFileName(dir, name, ".json");
  }

  /** `key[key.rfind('/')+1:-5]` strips the directory and a five-character suffix. */
  lemma SuffixFileName(dir: string, name: string, ext: string)
    requires '/' !in name && '/' !in ext && |ext| == 5
    ensures var key := dir + "/" + name + ext;
      EndsWith(key, ext) && FileName(key) == name
  {
    var key := dir + "/" + name + ext;
    var tail := name + ext;
    assert '/' !in tail;
    assert key == dir + ['/'] + tail;
    RFindLast(dir, '/', tail);
    assert key[|dir| + 1..|key| - 5] == name;
    assert key[|key| - 5..] == ext;
  }

  /** A name without a `.` has no `.html` suffix. */
  lemma NoDotNoHtml(s: string)
    requires '.' !in s
    ensures !EndsWith(s, ".html")
  {
    assert |s| >= 5 ==> s[|s| - 5..][0] == s[|s| - 5] != '.';
  }

  /** The dashboard's key as intended: the dashboard's own file name under the
      visualization prefix. */
  function DestPath(date: string, epoch: string): (path: string)
    ensures EndsWith(path, ".html")
  {
    VISUALIZATION_KEY + "/" + DashboardFile(date, epoch)
  }

  /** The dashboard path ends with its file name, whatever the listing held. */
  lemma DestPathNamesDashboard(date: string, epoch: string)
    requires '/' !in date && '/' !in epoch
    ensures FileName(DestPath(date, epoch)) == date + "_visualization_on_epoch_" + epoch
  {
    var stem := date + "_visualization_on_epoch_" + epoch;
    var dir := VISUALIZATION_KEY + "/";
    assert '/' !in stem;
    assert DestPath(date, epoch) == dir + (stem + ".html");
    Associative(dir, stem, ".html");
    SuffixFileName(VISUALIZATION_KEY, stem, ".html");
  }

  /** lambda_handler over the listing of the bucket: keep the keys under the
      date's prefix, group, combine, and name the dashboard with the
      corrected key `DestPath`, not with line 70's leftover loop variable
      (see `DestPathAsWrittenMisnames`). */
  method LambdaHandler(objects: seq<Listed>, query: Query, epoch: string) returns (r: Result<Dashboard>)
    ensures var listed := Listing(objects, query.date);
      var g := GroupSpec(listed, query.nodeIds);
      r == match CombineAllSpec(g.order, g.lists)
           case Err(e) => Err(e)
           case Ok(m) => Ok(Dashboard(DestPath(query.date, epoch), m))
  {
    var listed := ListObjects(objects, query.date);
    var g := GroupObjects(listed, query.nodeIds);
    var combined := CombineAll(g);
    if combined.Err? {
      return Err(combined.error);
    }
    return Ok(Dashboard(DestPath(query.date, epoch), combined.value));
  }

  function StartsWith(s: string, prefix: string): bool
  {
    |prefix| <= |s| && s[..|prefix|] == prefix
  }

  /** `bucket.objects.filter(Prefix=...)`: the objects under the date's
      prefix, in listing order. */
  function Listing(objects: seq<Listed>, date: string): (r: seq<Listed>)
    ensures |r| <= |objects|
    ensures forall k :: 0 <= k < |r| ==> StartsWith(r[k].key, ListingPrefix(date))
    decreases |objects|
  {
    if objects == [] then []
    else
      Listing(Init(objects), date) +
        (if StartsWith(Last(objects).key, ListingPrefix(date)) then [Last(objects)] else [])
  }

  method ListObjects(objects: seq<Listed>, date: string) returns (listed: seq<Listed>)
    ensures listed == Listing(objects, date)
  {
    listed := [];
    for i := 0 to |objects|
      invariant listed == Listing(objects[..i], date)
    {
      assert Init(objects[..i + 1]) == objects[..i] && Last(objects[..i + 1]) == objects[i];
      if StartsWith(objects[i].key, ListingPrefix(date)) {
        listed := listed + [objects[i]];
      }
    }
    assert objects[..|objects|] == objects;
  }

  /** The combined results have exactly one entry per tool with at least one
      selected record, and a script name never reaches combine_ebpf's
      "Invalid script name". */
  lemma CombinedPerScript(objects: seq<Listed>, nodeIds: seq<string>)
    ensures var g := GroupSpec(objects, nodeIds);
      var r := CombineAllSpec(g.order, g.lists);
      (r.Ok? ==> forall s :: s in r.value <==> ScriptRecords(objects, nodeIds, s) != []) &&
      (r.Err? ==> r.error != InvalidScriptName)
  {
    var g := GroupSpec(objects, nodeIds);
    GroupMembers(objects, nodeIds);
    CombineAllKnown(g.order, g.lists);
  }

  lemma {:induction false} CombineAllKnown(order: seq<string>, lists: map<string, seq<Record>>)
    requires forall s :: s in order ==> s in QUERY_SCRIPTS
    ensures CombineAllSpec(order, lists).Err? ==> CombineAllSpec(order, lists).error != InvalidScriptName
    decreases |order|
  {
    if order != [] {
      assert forall s :: s in Init(order) ==> s in order;
      CombineAllKnown(Init(order), lists);
      var s := Last(order);
      assert s in QUERY_SCRIPTS;
      assert s in SCRIPTS;
      CombineRejectsUnknown(ListOf(lists, s), s);
    }
  }
}
