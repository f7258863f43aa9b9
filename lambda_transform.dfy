/** The transformation Lambda: it reads a raw object key of the form
    `<prefix>/<timestamp>/<node>_<script>.txt`, decodes the object with the
    tool decoder the script name selects, and uploads a JSON record under
    `KEY + timestamp + "/" + node + "_" + script + ".json"`. The S3 event,
    `get_object`, `put_object` and JSON encoding are not modelled: the key
    and the raw object are inputs, the upload is the result. */
module LambdaTransform {
  import opened Errors
  import opened Text
  import opened Transform

  /** The prefix of every transformed object (`KEY`). */
  const TRANSFORMED_KEY: string := "transformed_key"

  /** What the handler reads out of an object key. */
  datatype KeyParts = KeyParts(timestamp: string, nodeName: string, scriptName: string)

  /** The JSON record the handler uploads. */
  datatype Record = Record(node: string, timestamp: string, scriptName: string,
                           outputFilepath: string, data: ToolData)

  /** One `put_object`: the object key and the record stored under it. */
  datatype Upload = Upload(path: string, record: Record)

  /** The third path segment's text before its first `.`. */
  function BaseName(segment: string): (r: string)
    ensures '.' !in r
  {
    Split(segment, '.')[0]
  }

  /** Lines 19-24: the timestamp is the second `/`-segment; the third
      segment's base name splits on `_` into the node name (all but the
      last piece, rejoined) and the script name (the last piece). A key
      with fewer than three segments raises IndexError. */
  function ParseKey(key: string): (r: Result<KeyParts>)
    ensures r.Err? ==> r.error == IndexError
    ensures r.Ok? ==> '/' !in r.value.timestamp && '_' !in r.value.scriptName
  {
    var fileElements := Split(key, '/');
    if |fileElements| < 3 then Err(IndexError)
    else
      var elements := Split(BaseName(fileElements[2]), '_');
      Ok(KeyParts(fileElements[1], Join("_", Init(elements)), Last(elements)))
  }

  /** A key parses exactly when it holds at least two `/`. */
  lemma ParseKeyFails(key: string)
    ensures ParseKey(key).Err? <==> multiset(key)['/'] < 2
  {
    SplitLength(key, '/');
  }

  /** The node and script names hold neither `/` nor `.`; when the base name
      holds a `_`, `node_name + "_" + script_name` gives it back. */
  lemma ParseKeyNames(key: string)
    requires ParseKey(key).Ok?
    ensures var p := ParseKey(key).value;
      var base := BaseName(Split(key, '/')[2]);
      '/' !in p.nodeName && '/' !in p.scriptName &&
      '.' !in p.nodeName && '.' !in p.scriptName &&
      ('_' in base ==> p.nodeName + "_" + p.scriptName == base) &&
      ('_' !in base ==> p.nodeName == "" && p.scriptName == base)
  {
    var p := ParseKey(key).value;
    var segment := Split(key, '/')[2];
    var base := BaseName(segment);
    var elements := Split(base, '_');
    assert '/' !in segment;
    if '/' in base {
      SplitPieceChars(segment, '.', 0, '/');
    }
    NamesFromBase(base);
  }

  /** The names read out of a base name free of `/` and `.`. */
  lemma NamesFromBase(base: string)
    requires '/' !in base && '.' !in base
    ensures var elements := Split(base, '_');
      var node := Join("_", Init(elements));
      var script := Last(elements);
      '/' !in node && '/' !in script && '.' !in node && '.' !in script &&
      ('_' in base ==> node + "_" + script == base) &&
      ('_' !in base ==> node == "" && script == base)
  {
    var elements := Split(base, '_');
    var node := Join("_", Init(elements));
    var script := Last(elements);
    if '_' in base {
      SnocJoinSplit(base, '_');
      SliceOmits(base, 0, |node|);
      SliceOmits(base, |node| + 1, |base|);
      assert node == base[..|node|] && script == base[|node| + 1..];
    } else {
      assert Init(elements) == [];
    }
  }

  /** `"_".join(parts[:-1]) + "_" + parts[-1]` is the string split. */
  lemma SnocJoinSplit(s: string, c: char)
    requires c in s
    ensures var parts := Split(s, c);
      Join([c], Init(parts)) + [c] + Last(parts) == s
  {
    var parts := Split(s, c);
    var init := Init(parts);
    var last := Last(parts);
    assert |init| >= 1;
    assert init + [last] == parts;
    JoinSplit(s, c);
    JoinSnoc([c], init, last);
    assert Join([c], parts) == Join([c], init) + [c] + last;
  }

  /** A slice holds no character its string does not. */
  lemma SliceOmits(s: string, i: nat, j: nat)
    requires i <= j <= |s|
    ensures '/' !in s ==> '/' !in s[i..j]
    ensures '.' !in s ==> '.' !in s[i..j]
  {
    if '/' in s[i..j] {
      var k :| i <= k < j && s[k] == '/';
    }
    if '.' in s[i..j] {
      var k :| i <= k < j && s[k] == '.';
    }
  }

  /** The three `/`-segments of `dir/timestamp/file`. */
  lemma KeySegments(dir: string, timestamp: string, file: string)
    requires '/' !in dir && '/' !in timestamp && '/' !in file
    ensures Split(dir + "/" + timestamp + "/" + file, '/') == [dir, timestamp, file]
  {
    assert dir + "/" + timestamp + "/" + file == dir + ['/'] + (timestamp + ['/'] + file);
    SplitAtFirst(dir, '/', timestamp + ['/'] + file);
    SplitAtFirst(timestamp, '/', file);
  }

  /** The base name of `base.ext`. */
  lemma BaseOfFile(base: string, ext: string)
    requires '.' !in base && |ext| >= 1 && ext[0] == '.'
    ensures BaseName(base + ext) == base
  {
    assert base + ext == base + ['.'] + ext[1..];
    SplitAtFirst(base, '.', ext[1..]);
  }

  /** The names of `node_script` when the script holds no `_`. */
  lemma NamesOfBase(node: string, script: string)
    requires '_' !in script
    ensures var elements := Split(node + "_" + script, '_');
      Join("_", Init(elements)) == node && Last(elements) == script
  {
    SplitLast(node, '_', script);
    var elements := Split(node + "_" + script, '_');
    assert Init(elements) == Split(node, '_');
    JoinSplit(node, '_');
  }

  /** Reading back what a writer names `dir/timestamp/node_script<ext>`: the
      timestamp, node and script come back unchanged, provided the directory
      and the timestamp hold no `/`, the names hold no `/` or `.`, the script
      holds no `_` and the extension starts with the `.`. Node names may hold
      `_`. */
  lemma ParseKeyRoundTrip(dir: string, timestamp: string, node: string, script: string, ext: string)
    requires '/' !in dir && '/' !in timestamp
    requires '/' !in node && '.' !in node && '/' !in script && '.' !in script && '_' !in script
    requires |ext| >= 1 && ext[0] == '.' && '/' !in ext
    ensures ParseKey(dir + "/" + timestamp + "/" + node + "_" + script + ext) ==
      Ok(KeyParts(timestamp, node, script))
  {
    var base := node + "_" + script;
    var file := base + ext;
    assert '/' !in file && '.' !in base;
    KeySegments(dir, timestamp, file);
    assert dir + "/" + timestamp + "/" + node + "_" + script + ext == dir + "/" + timestamp + "/" + file;
    BaseOfFile(base, ext);
    NamesOfBase(node, script);
  }

  /** Lines 37-38: where the record goes. */
  function OutputPath(p: KeyParts): (path: string)
    ensures EndsWith(path, ".json")
  {
    TRANSFORMED_KEY + p.timestamp + "/" + p.nodeName + "_" + p.scriptName + ".json"
  }

  /** lambda_handler: parse the key, decode the object for its script, and
      upload the record under the output path. Errors of either step end
      the handler. */
  function HandlerSpec(key: string, raw: RawObject, toFloat: string -> Option<real>): Result<Upload>
  {
    match ParseKey(key)
    case Err(e) => Err(e)
    case Ok(p) =>
      match TransformSpec(p.scriptName, raw, p.nodeName, toFloat)
      case Err(e) => Err(e)
      case Ok(data) =>
        Ok(Upload(OutputPath(p), Record(p.nodeName, p.timestamp, p.scriptName, key, data)))
  }

  method LambdaHandler(key: string, raw: RawObject, toFloat: string -> Option<real>) returns (r: Result<Upload>)
    ensures r == HandlerSpec(key, raw, toFloat)
  {
    var fileElements := Split(key, '/');
    if |fileElements| < 3 {
      return Err(IndexError);
    }
    var timestamp := fileElements[1];
    var elements := Split(BaseName(fileElements[2]), '_');
    var scriptName := Last(elements);
    var nodeName := Join("_", Init(elements));
    var data := TransformEbpf(scriptName, raw, nodeName, toFloat);
    if data.Err? {
      return Err(data.error);
    }
    var p := KeyParts(timestamp, nodeName, scriptName);
    return Ok(Upload(OutputPath(p), Record(nodeName, timestamp, scriptName, key, data.value)));
  }

  /** An upload carries the key's names and the key itself, and is stored
      where the key's parts say; a script name outside the five tools is
      rejected. */
  lemma HandlerRecord(key: string, raw: RawObject, toFloat: string -> Option<real>)
    ensures var r := HandlerSpec(key, raw, toFloat);
      r.Ok? ==>
        ParseKey(key).Ok? && r.value.path == OutputPath(ParseKey(key).value) &&
        r.value.record.node == ParseKey(key).value.nodeName &&
        r.value.record.timestamp == ParseKey(key).value.timestamp &&
        r.value.record.scriptName == ParseKey(key).value.scriptName &&
        r.value.record.scriptName in SCRIPTS &&
        r.value.record.outputFilepath == key
  {
    if ParseKey(key).Ok? {
      var p := ParseKey(key).value;
      TransformRejectsUnknown(p.scriptName, raw, p.nodeName, toFloat);
    }
  }
}
