/** The raw-output decoders of lambda/transformation/transform.py: each turns
    one tracing tool's text dump into columnar records. A raw S3 object is
    given as what the decoders read from it: its lines (`iter_lines`,
    already decoded), its whole body (`read`), and the result of
    `ast.literal_eval` on the stripped body (None when that raises). */
module Transform {
  import opened Errors
  import opened Text

  // ----- the tokenizer `re.split(r"\s+", line.strip())` -----

  /** Unicode whitespace as `str.isspace` and the `\s` class of `re` see it. */
  predicate IsSpace(c: char)
  {
    ('\t' <= c <= '\r') || ('\U{001C}' <= c <= '\U{001F}') || c == ' ' ||
    c == '\U{0085}' || c == '\U{00A0}' || c == '\U{1680}' ||
    ('\U{2000}' <= c <= '\U{200A}') || c == '\U{2028}' || c == '\U{2029}' ||
    c == '\U{202F}' || c == '\U{205F}' || c == '\U{3000}'
  }

  predicate NoSpace(w: string)
  {
    forall k :: 0 <= k < |w| ==> !IsSpace(w[k])
  }

  predicate AllSpace(s: string)
  {
    forall k :: 0 <= k < |s| ==> IsSpace(s[k])
  }

  /** `s.lstrip()`: drops a whitespace prefix. */
  function TrimLeft(s: string): (r: string)
    ensures |r| <= |s|
    decreases |s|
  {
    if s != [] && IsSpace(s[0]) then TrimLeft(s[1..]) else s
  }

  /** `s.rstrip()`: drops a whitespace suffix. */
  function TrimRight(s: string): (r: string)
    ensures |r| <= |s|
    decreases |s|
  {
    if s != [] && IsSpace(s[|s| - 1]) then TrimRight(s[..|s| - 1]) else s
  }

  /** `s.strip()`. */
  function Strip(s: string): string
  {
    TrimRight(TrimLeft(s))
  }

  lemma {:induction false} TrimLeftShape(s: string)
    ensures var r := TrimLeft(s);
      r == s[|s| - |r|..] && AllSpace(s[..|s| - |r|]) && (r == [] || !IsSpace(r[0]))
    decreases |s|
  {
    if s != [] && IsSpace(s[0]) {
      TrimLeftShape(s[1..]);
      var r := TrimLeft(s[1..]);
      assert s[..|s| - |r|] == [s[0]] + s[1..][..|s| - 1 - |r|];
    }
  }

  lemma {:induction false} TrimRightShape(s: string)
    ensures var r := TrimRight(s);
      r == s[..|r|] && AllSpace(s[|r|..]) && (r == [] || !IsSpace(r[|r| - 1]))
    decreases |s|
  {
    if s != [] && IsSpace(s[|s| - 1]) {
      TrimRightShape(s[..|s| - 1]);
      var r := TrimRight(s[..|s| - 1]);
      assert s[|r|..] == s[..|s| - 1][|r|..] + [s[|s| - 1]];
    }
  }

  lemma StripEmpty(s: string)
    ensures Strip(s) == "" <==> AllSpace(s)
    ensures Strip(s) != "" ==> !IsSpace(Strip(s)[0])
  {
    var l := TrimLeft(s);
    var r := TrimRight(l);
    TrimLeftShape(s);
    TrimRightShape(l);
    if r == "" {
      assert l[|r|..] == l;
      assert l == "";
      assert s == s[..|s| - |l|];
    }
    if l != "" && r != "" {
      assert r[0] == l[0];
    }
  }

  /** Length of the maximal whitespace-free prefix. */
  function WordLength(s: string): (n: nat)
    ensures n <= |s|
    ensures s != [] && !IsSpace(s[0]) ==> n >= 1
    decreases |s|
  {
    if s == [] || IsSpace(s[0]) then 0 else 1 + WordLength(s[1..])
  }

  lemma {:induction false} WordLengthShape(s: string)
    ensures var n := WordLength(s); NoSpace(s[..n]) && (n < |s| ==> IsSpace(s[n]))
    decreases |s|
  {
    if s != [] && !IsSpace(s[0]) {
      WordLengthShape(s[1..]);
      var n := WordLength(s[1..]);
      assert s[..1 + n] == [s[0]] + s[1..][..n];
    }
  }

  /** The maximal whitespace-free runs of `s`, in order. */
  function Words(s: string): seq<string>
    decreases |s|
  {
    if s == [] then []
    else if IsSpace(s[0]) then Words(s[1..])
    else
      var n := WordLength(s);
      [s[..n]] + Words(s[n..])
  }

  lemma {:induction false} WordsShape(s: string)
    ensures var r := Words(s);
      (forall i :: 0 <= i < |r| ==> r[i] != "" && NoSpace(r[i])) && (r == [] <==> AllSpace(s))
    decreases |s|
  {
    if s != [] {
      if IsSpace(s[0]) {
        WordsShape(s[1..]);
        assert AllSpace(s[1..]) ==> AllSpace(s);
      } else {
        var n := WordLength(s);
        WordLengthShape(s);
        WordsShape(s[n..]);
      }
    }
  }

  /** `re.split(r"\s+", line.strip())`: the whitespace-separated tokens of
      the line, or the single empty token when the line is blank. */
  function Tokenize(line: string): (r: seq<string>)
    ensures |r| >= 1
  {
    var t := Strip(line);
    if t == "" then [""]
    else
      StripEmpty(line);
      Words(t)
  }

  /** No token holds whitespace; the tokens are `[""]` exactly when the line
      is blank, and otherwise none of them is empty. */
  lemma TokenizeShape(line: string)
    ensures var r := Tokenize(line);
      (forall i :: 0 <= i < |r| ==> NoSpace(r[i])) &&
      (r == [""] <==> AllSpace(line)) &&
      (!AllSpace(line) ==> forall i :: 0 <= i < |r| ==> r[i] != "")
  {
    var t := Strip(line);
    StripEmpty(line);
    if t != "" {
      WordsShape(t);
      var r := Words(t);
      assert !AllSpace(t);
      assert r[0] != "";
    }
  }

  /** The characters of `s` that are not whitespace. */
  function Squeeze(s: string): string
    decreases |s|
  {
    if s == [] then [] else (if IsSpace(s[0]) then [] else [s[0]]) + Squeeze(s[1..])
  }

  /** The concatenation of a list of strings. */
  function Concat(ws: seq<string>): string
    decreases |ws|
  {
    if ws == [] then "" else ws[0] + Concat(ws[1..])
  }

  lemma {:induction false} SqueezeAppend(a: string, b: string)
    ensures Squeeze(a + b) == Squeeze(a) + Squeeze(b)
    decreases |a|
  {
    if a != [] {
      assert (a + b)[1..] == a[1..] + b;
      SqueezeAppend(a[1..], b);
    } else {
      assert a + b == b;
    }
  }

  lemma {:induction false} SqueezeNoSpace(a: string)
    requires NoSpace(a)
    ensures Squeeze(a) == a
    decreases |a|
  {
    if a != [] {
      SqueezeNoSpace(a[1..]);
    }
  }

  lemma {:induction false} SqueezeAllSpace(a: string)
    requires AllSpace(a)
    ensures Squeeze(a) == ""
    decreases |a|
  {
    if a != [] {
      SqueezeAllSpace(a[1..]);
    }
  }

  lemma {:induction false} ConcatWords(s: string)
    ensures Concat(Words(s)) == Squeeze(s)
    decreases |s|
  {
    if s != [] {
      if IsSpace(s[0]) {
        ConcatWords(s[1..]);
      } else {
        var n := WordLength(s);
        WordLengthShape(s);
        ConcatWords(s[n..]);
        assert s == s[..n] + s[n..];
        SqueezeAppend(s[..n], s[n..]);
        SqueezeNoSpace(s[..n]);
        assert ([s[..n]] + Words(s[n..]))[1..] == Words(s[n..]);
      }
    }
  }

  /** The tokens hold exactly the line's non-whitespace characters, in order. */
  lemma TokenizeKeepsText(line: string)
    ensures Concat(Tokenize(line)) == Squeeze(line)
  {
    var l := TrimLeft(line);
    var t := TrimRight(l);
    TrimLeftShape(line);
    TrimRightShape(l);
    assert line == line[..|line| - |l|] + l;
    assert l == t + l[|t|..];
    SqueezeAppend(line[..|line| - |l|], l);
    SqueezeAllSpace(line[..|line| - |l|]);
    SqueezeAppend(t, l[|t|..]);
    SqueezeAllSpace(l[|t|..]);
    StripEmpty(line);
    if t == "" {
      assert Concat([""]) == "";
    } else {
      ConcatWords(t);
    }
  }

  lemma WordLengthOfWord(w: string, rest: string)
    requires NoSpace(w)
    requires rest == [] || IsSpace(rest[0])
    ensures WordLength(w + rest) == |w|
  {
    var s := w + rest;
    WordLengthShape(s);
    assert s[..|w|] == w;
  }

  lemma {:induction false} WordsOfJoin(ts: seq<string>)
    requires |ts| >= 1
    requires forall i :: 0 <= i < |ts| ==> ts[i] != "" && NoSpace(ts[i])
    ensures Words(Join(" ", ts)) == ts
    decreases |ts|
  {
    var w := ts[0];
    if |ts| == 1 {
      WordLengthOfWord(w, "");
      assert w + "" == w;
      assert w[|w|..] == "";
    } else {
      var rest := Join(" ", ts[1..]);
      var s := w + " " + rest;
      assert s == w + (" " + rest);
      WordLengthOfWord(w, " " + rest);
      assert s[..|w|] == w;
      assert s[|w|..] == " " + rest;
      assert (" " + rest)[1..] == rest;
      WordsOfJoin(ts[1..]);
      assert ts == [w] + ts[1..];
    }
  }

  lemma {:induction false} JoinEnds(ts: seq<string>)
    requires |ts| >= 1
    requires forall i :: 0 <= i < |ts| ==> ts[i] != ""
    ensures Join(" ", ts) != ""
    ensures Join(" ", ts)[0] == ts[0][0]
    ensures Join(" ", ts)[|Join(" ", ts)| - 1] == ts[|ts| - 1][|ts[|ts| - 1]| - 1]
    decreases |ts|
  {
    if |ts| > 1 {
      JoinEnds(ts[1..]);
    }
  }

  /** Tokenizing the tokens joined by single spaces gives the tokens back. */
  lemma TokenizeJoin(ts: seq<string>)
    requires |ts| >= 1
    requires forall i :: 0 <= i < |ts| ==> ts[i] != "" && NoSpace(ts[i])
    ensures Tokenize(Join(" ", ts)) == ts
  {
    var s := Join(" ", ts);
    JoinEnds(ts);
    assert !IsSpace(s[0]) && !IsSpace(s[|s| - 1]);
    assert TrimLeft(s) == s;
    assert Strip(s) == s;
    WordsOfJoin(ts);
  }

  /** The token list of every line, in line order. */
  function TokenRows(lines: seq<string>): (r: seq<seq<string>>)
    ensures |r| == |lines|
    decreases |lines|
  {
    if lines == [] then [] else TokenRows(Init(lines)) + [Tokenize(Last(lines))]
  }

  /** Row k of the token rows is the tokenized line k. */
  lemma {:induction false} TokenRowsAt(lines: seq<string>, k: nat)
    requires k < |lines|
    ensures TokenRows(lines)[k] == Tokenize(lines[k])
    decreases |lines|
  {
    if k < |lines| - 1 {
      TokenRowsAt(Init(lines), k);
    }
  }

  /** Every line gives at least one token (the empty one for a blank line). */
  lemma TokenRowsNonEmpty(lines: seq<string>)
    ensures forall k :: 0 <= k < |lines| ==> |TokenRows(lines)[k]| >= 1
  {
    forall k | 0 <= k < |lines|
      ensures |TokenRows(lines)[k]| >= 1
    {
      TokenRowsAt(lines, k);
    }
  }

  /** The `re.split` each decoder loop applies to its next line, for all the lines in turn. */
  method SplitLines(lines: seq<string>) returns (rows: seq<seq<string>>)
    ensures rows == TokenRows(lines)
  {
    rows := [];
    for i := 0 to |lines|
      invariant rows == TokenRows(lines[..i])
    {
      assert Init(lines[..i + 1]) == lines[..i];
      rows := rows + [Tokenize(lines[i])];
    }
    assert lines[..|lines|] == lines;
  }

  /** The token rows `keep` accepts, in order. */
  function Filter(rows: seq<seq<string>>, keep: seq<string> -> bool): (r: seq<seq<string>>)
    ensures |r| <= |rows|
    ensures forall k :: 0 <= k < |r| ==> keep(r[k])
    decreases |rows|
  {
    if rows == [] then []
    else Filter(Init(rows), keep) + (if keep(Last(rows)) then [Last(rows)] else [])
  }

  // ----- execsnoop -----

  /** A Python dict of lists: its keys in insertion order, and its contents. */
  datatype Columns = Columns(keys: seq<string>, data: map<string, seq<string>>)

  predicate Distinct(xs: seq<string>)
  {
    forall i, j :: 0 <= i < j < |xs| ==> xs[i] != xs[j]
  }

  /** The keys of `{e: [] for e in xs}` in insertion order. */
  function Dedup(xs: seq<string>): (r: seq<string>)
    ensures forall x :: x in r <==> x in xs
    ensures Distinct(r)
    ensures Distinct(xs) ==> r == xs
    decreases |xs|
  {
    if xs == [] then []
    else
      var d := Dedup(xs[..|xs| - 1]);
      assert xs == xs[..|xs| - 1] + [xs[|xs| - 1]];
      if xs[|xs| - 1] in d then d else d + [xs[|xs| - 1]]
  }

  /** `r[i]` comes before `r[j]` in `r` only when `r[i]` occurs in `xs`
      before any occurrence of `r[j]`: the dict keeps first-insertion
      order. */
  ghost predicate FirstOccurrenceOrder(xs: seq<string>, r: seq<string>)
  {
    forall i, j :: 0 <= i < j < |r| ==>
      exists a :: 0 <= a < |xs| && xs[a] == r[i] && r[j] !in xs[..a + 1]
  }

  /** The keys of `{e: [] for e in xs}` are in the order of their first
      occurrence in `xs`: a header with repeats keeps its first copies. */
  lemma {:induction false} DedupFirstOccurrence(xs: seq<string>)
    ensures FirstOccurrenceOrder(xs, Dedup(xs))
    decreases |xs|
  {
    if xs != [] {
      var init := xs[..|xs| - 1];
      var last := xs[|xs| - 1];
      var d := Dedup(init);
      DedupFirstOccurrence(init);
      var r := Dedup(xs);
      forall i, j | 0 <= i < j < |r|
        ensures exists a :: 0 <= a < |xs| && xs[a] == r[i] && r[j] !in xs[..a + 1]
      {
        if j < |d| {
          assert r[i] == d[i] && r[j] == d[j];
          var a :| 0 <= a < |init| && init[a] == d[i] && d[j] !in init[..a + 1];
          assert xs[..a + 1] == init[..a + 1];
        } else {
          assert r == d + [last] && r[j] == last && r[i] == d[i];
          assert last !in init;
          assert d[i] in init;
          var a :| 0 <= a < |init| && init[a] == d[i];
          assert xs[..a + 1] == init[..a + 1];
        }
      }
    }
  }

  function Repeat(x: string, n: nat): (r: seq<string>)
    ensures |r| == n && forall k :: 0 <= k < n ==> r[k] == x
  {
    seq(n, _ => x)
  }

  /** What one data row adds to the columns: the inner loop of lines 36-43,
      from token `idx` on. The column of the last header token absorbs the
      rest of the row. */
  function AppendCells(data: map<string, seq<string>>, mapping: seq<string>,
                       tokens: seq<string>, idx: nat): (r: map<string, seq<string>>)
    requires idx < |mapping|
    requires forall k :: 0 <= k < |mapping| ==> mapping[k] in data
    ensures r.Keys == data.Keys
    decreases |tokens| - idx
  {
    if idx >= |tokens| then data
    else if idx == |mapping| - 1 then
      data[mapping[idx] := data[mapping[idx]] + [Join(" ", tokens[idx..])]]
    else
      AppendCells(data[mapping[idx] := data[mapping[idx]] + [tokens[idx]]], mapping, tokens, idx + 1)
  }

  /** The columns after the data rows `rows`, in order. */
  function ExecsnoopRows(data: map<string, seq<string>>, mapping: seq<string>,
                         rows: seq<seq<string>>): (r: map<string, seq<string>>)
    requires |mapping| >= 1
    requires forall k :: 0 <= k < |mapping| ==> mapping[k] in data
    ensures r.Keys == data.Keys
    decreases |rows|
  {
    if rows == [] then data
    else AppendCells(ExecsnoopRows(data, mapping, Init(rows)), mapping, Last(rows), 0)
  }

  function EmptyColumns(mapping: seq<string>): (m: map<string, seq<string>>)
    ensures forall k :: 0 <= k < |mapping| ==> mapping[k] in m && m[mapping[k]] == []
  {
    var none: seq<string> := [];
    map k | k in mapping :: none
  }

  /** transform_execsnoop: the header line names the columns; a `node` column
      as long as the first one is added. No line at all raises StopIteration. */
  function ExecsnoopSpec(lines: seq<string>, node: string): (r: Result<Columns>)
    ensures r.Err? <==> lines == []
    ensures r.Err? ==> r.error == StopIteration
  {
    if lines == [] then Err(StopIteration)
    else Ok(ExecsnoopTable(Tokenize(lines[0]), TokenRows(lines[1..]), node))
  }

  /** The table built from the header tokens `mapping` and the data rows. */
  function ExecsnoopTable(mapping: seq<string>, rows: seq<seq<string>>, node: string): Columns
    requires |mapping| >= 1
  {
    var data := ExecsnoopRows(EmptyColumns(mapping), mapping, rows);
    var keys := if "node" in mapping then Dedup(mapping) else Dedup(mapping) + ["node"];
    Columns(keys, data["node" := Repeat(node, |data[mapping[0]]|)])
  }

  method TransformExecsnoop(lines: seq<string>, node: string) returns (r: Result<Columns>)
    ensures r == ExecsnoopSpec(lines, node)
  {
    if |lines| == 0 {
      return Err(StopIteration);
    }
    var mapping := Tokenize(lines[0]);
    var data := EmptyColumns(mapping);
    var rows := SplitLines(lines[1..]);
    for i := 0 to |rows|
      invariant data == ExecsnoopRows(EmptyColumns(mapping), mapping, rows[..i])
    {
      assert Init(rows[..i + 1]) == rows[..i] && Last(rows[..i + 1]) == rows[i];
      data := AppendRow(data, mapping, rows[i]);
    }
    assert rows[..|rows|] == rows;
    var keys := if "node" in mapping then Dedup(mapping) else Dedup(mapping) + ["node"];
    data := data["node" := Repeat(node, |data[mapping[0]]|)];
    return Ok(Columns(keys, data));
  }

  /** The inner loop of transform_execsnoop: one row's tokens appended to
      the columns the header names. */
  method AppendRow(data: map<string, seq<string>>, mapping: seq<string>, elements: seq<string>)
    returns (d: map<string, seq<string>>)
    requires |mapping| >= 1
    requires forall k :: 0 <= k < |mapping| ==> mapping[k] in data
    ensures d == AppendCells(data, mapping, elements, 0)
  {
    d := data;
    var idx := 0;
    while idx < |elements|
      invariant 0 <= idx < |mapping|
      invariant d.Keys == data.Keys
      invariant AppendCells(d, mapping, elements, idx) == AppendCells(data, mapping, elements, 0)
    {
      if idx == |mapping| - 1 {
        d := d[mapping[idx] := d[mapping[idx]] + [Join(" ", elements[idx..])]];
        break;
      }
      d := d[mapping[idx] := d[mapping[idx]] + [elements[idx]]];
      idx := idx + 1;
    }
  }

  /** The cells one row of tokens gives the `n` columns: one token each for
      the first n-1, the rest joined by spaces for the last; a shorter row
      fills only its first columns. */
  function RowCells(tokens: seq<string>, n: nat): (r: seq<string>)
    requires n >= 1
    ensures |r| == if |tokens| < n then |tokens| else n
    ensures forall j :: 0 <= j < |r| && j < n - 1 ==> r[j] == tokens[j]
    ensures |tokens| >= n ==> r[n - 1] == Join(" ", tokens[n - 1..])
  {
    if |tokens| >= n then tokens[..n - 1] + [Join(" ", tokens[n - 1..])] else tokens
  }

  /** Column `j` over the data rows `rows`. */
  function ColumnOf(rows: seq<seq<string>>, n: nat, j: nat): seq<string>
    requires n >= 1
    decreases |rows|
  {
    if rows == [] then []
    else
      var cells := RowCells(Last(rows), n);
      ColumnOf(Init(rows), n, j) + (if j < |cells| then [cells[j]] else [])
  }

  lemma {:induction false} AppendCellsColumn(data: map<string, seq<string>>, mapping: seq<string>,
                                             tokens: seq<string>, idx: nat, j: nat)
    requires idx < |mapping| && j < |mapping| && Distinct(mapping)
    requires forall k :: 0 <= k < |mapping| ==> mapping[k] in data
    ensures AppendCells(data, mapping, tokens, idx)[mapping[j]] ==
      data[mapping[j]] +
      (var cells := RowCells(tokens, |mapping|); if idx <= j < |cells| then [cells[j]] else [])
    decreases |tokens| - idx
  {
    var n := |mapping|;
    if idx < |tokens| && idx != n - 1 {
      var data' := data[mapping[idx] := data[mapping[idx]] + [tokens[idx]]];
      AppendCellsColumn(data', mapping, tokens, idx + 1, j);
      if j != idx {
        assert mapping[j] != mapping[idx];
      }
    } else if idx < |tokens| && j != idx {
      assert mapping[j] != mapping[idx];
    }
  }

  lemma {:induction false} ExecsnoopRowsColumn(data: map<string, seq<string>>, mapping: seq<string>,
                                               rows: seq<seq<string>>, j: nat)
    requires j < |mapping| && Distinct(mapping)
    requires forall k :: 0 <= k < |mapping| ==> mapping[k] in data
    ensures ExecsnoopRows(data, mapping, rows)[mapping[j]] == data[mapping[j]] + ColumnOf(rows, |mapping|, j)
    decreases |rows|
  {
    if rows != [] {
      ExecsnoopRowsColumn(data, mapping, Init(rows), j);
      AppendCellsColumn(ExecsnoopRows(data, mapping, Init(rows)), mapping, Last(rows), 0, j);
    }
  }

  /** Every data row with a token puts exactly one cell into the first column. */
  lemma {:induction false} FirstColumnLength(rows: seq<seq<string>>, n: nat)
    requires n >= 1
    requires forall k :: 0 <= k < |rows| ==> |rows[k]| >= 1
    ensures |ColumnOf(rows, n, 0)| == |rows|
    decreases |rows|
  {
    if rows != [] {
      assert |Last(rows)| >= 1;
      FirstColumnLength(Init(rows), n);
    }
  }

  /** Over token rows with a header of distinct names other than `node`: the
      columns are the header names in order followed by `node`; column j
      holds, row by row, the j-th cell of each row long enough to reach it;
      when every row has a token, the node column holds the node name once
      per row. */
  lemma ExecsnoopTableColumns(header: seq<string>, rows: seq<seq<string>>, node: string)
    requires |header| >= 1 && Distinct(header) && "node" !in header
    ensures var t := ExecsnoopTable(header, rows, node);
      t.keys == header + ["node"] &&
      (forall j :: 0 <= j < |header| ==> t.data[header[j]] == ColumnOf(rows, |header|, j)) &&
      ((forall k :: 0 <= k < |rows| ==> |rows[k]| >= 1) ==> t.data["node"] == Repeat(node, |rows|))
  {
    var data := ExecsnoopRows(EmptyColumns(header), header, rows);
    var out := data["node" := Repeat(node, |data[header[0]]|)];
    forall j | 0 <= j < |header|
      ensures out[header[j]] == ColumnOf(rows, |header|, j)
    {
      ExecsnoopRowsColumn(EmptyColumns(header), header, rows, j);
      assert header[j] != "node";
    }
    if forall k :: 0 <= k < |rows| ==> |rows[k]| >= 1 {
      ExecsnoopTableNode(header, rows, node);
    }
  }

  /** When every data row has a token, the node column has one cell per row. */
  lemma ExecsnoopTableNode(header: seq<string>, rows: seq<seq<string>>, node: string)
    requires |header| >= 1 && Distinct(header)
    requires forall k :: 0 <= k < |rows| ==> |rows[k]| >= 1
    ensures ExecsnoopTable(header, rows, node).data["node"] == Repeat(node, |rows|)
  {
    ExecsnoopRowsColumn(EmptyColumns(header), header, rows, 0);
    FirstColumnLength(rows, |header|);
  }

  /** transform_execsnoop with a header of distinct names other than `node`:
      the table of `ExecsnoopTableColumns` with one node cell per data line. */
  lemma ExecsnoopColumns(lines: seq<string>, node: string)
    requires |lines| >= 1
    requires Distinct(Tokenize(lines[0])) && "node" !in Tokenize(lines[0])
    ensures var header := Tokenize(lines[0]);
      var r := ExecsnoopSpec(lines, node);
      r.Ok? && r.value.keys == header + ["node"] &&
      (forall j :: 0 <= j < |header| ==>
         r.value.data[header[j]] == ColumnOf(TokenRows(lines[1..]), |header|, j)) &&
      r.value.data["node"] == Repeat(node, |lines| - 1)
  {
    ExecsnoopSpecTable(lines, node);
    ExecsnoopTableColumns(Tokenize(lines[0]), TokenRows(lines[1..]), node);
    ExecsnoopNodeColumn(lines, node);
  }

  lemma ExecsnoopSpecTable(lines: seq<string>, node: string)
    requires |lines| >= 1
    ensures ExecsnoopSpec(lines, node) == Ok(ExecsnoopTable(Tokenize(lines[0]), TokenRows(lines[1..]), node))
  {
  }

  /** One node cell per data line. */
  lemma ExecsnoopNodeColumn(lines: seq<string>, node: string)
    requires |lines| >= 1 && Distinct(Tokenize(lines[0]))
    ensures ExecsnoopTable(Tokenize(lines[0]), TokenRows(lines[1..]), node).data["node"] == Repeat(node, |lines| - 1)
  {
    var rows := TokenRows(lines[1..]);
    TokenRowsNonEmpty(lines[1..]);
    assert |rows| == |lines| - 1;
    ExecsnoopTableNode(Tokenize(lines[0]), rows, node);
  }

  /** When every data row has at least as many tokens as the header, every
      column has one cell per data row. */
  lemma {:induction false} ColumnOfFullRows(rows: seq<seq<string>>, n: nat, j: nat)
    requires n >= 1 && j < n
    requires forall k :: 0 <= k < |rows| ==> |rows[k]| >= n
    ensures |ColumnOf(rows, n, j)| == |rows|
    decreases |rows|
  {
    if rows != [] {
      assert Last(rows) == rows[|rows| - 1];
      ColumnOfFullRows(Init(rows), n, j);
    }
  }

  lemma {:induction false} JoinSplitAt(ts: seq<string>, k: nat)
    requires k < |ts|
    ensures Join(" ", ts[..k] + [Join(" ", ts[k..])]) == Join(" ", ts)
    decreases k
  {
    if k > 0 {
      JoinSplitAt(ts[1..], k - 1);
      assert (ts[..k] + [Join(" ", ts[k..])])[1..] == ts[1..][..k - 1] + [Join(" ", ts[1..][k - 1..])];
    } else {
      assert ts[..0] + [Join(" ", ts[0..])] == [Join(" ", ts)];
      assert ts[0..] == ts;
    }
  }

  /** No text is lost: a row's cells joined by spaces are its tokens joined by spaces. */
  lemma RowCellsKeepText(tokens: seq<string>, n: nat)
    requires n >= 1
    ensures Join(" ", RowCells(tokens, n)) == Join(" ", tokens)
  {
    if |tokens| >= n {
      JoinSplitAt(tokens, n - 1);
    }
  }

  // ----- syscount -----

  datatype SyscountTable = SyscountTable(calls: seq<string>, latencies: seq<real>)

  /** The line filter: three tokens, the last a decimal number. */
  predicate SyscountKeeps(tokens: seq<string>)
  {
    |tokens| == 3 && IsDecimal(tokens[2])
  }

  /** `float(elements[-1]) / float(elements[1])`; `toFloat` stands for
      Python's `float()` and answers None where it raises. */
  function SyscountLatency(tokens: seq<string>, toFloat: string -> Option<real>): (r: Result<real>)
    requires |tokens| == 3
    ensures r.Err? ==> r.error == ValueError || r.error == ZeroDivisionError
  {
    match toFloat(tokens[2])
    case None => Err(ValueError)
    case Some(total) =>
      match toFloat(tokens[1])
      case None => Err(ValueError)
      case Some(count) => if count == 0.0 then Err(ZeroDivisionError) else Ok(total / count)
  }

  /** The table after the token rows `rows`, in order. */
  function SyscountRows(rows: seq<seq<string>>, toFloat: string -> Option<real>): (r: Result<SyscountTable>)
    ensures r.Ok? ==> |r.value.calls| == |r.value.latencies|
    ensures r.Err? ==> r.error == ValueError || r.error == ZeroDivisionError
    decreases |rows|
  {
    if rows == [] then Ok(SyscountTable([], []))
    else
      match SyscountRows(Init(rows), toFloat)
      case Err(e) => Err(e)
      case Ok(t) =>
        var tokens := Last(rows);
        if SyscountKeeps(tokens) then
          match SyscountLatency(tokens, toFloat)
          case Err(e) => Err(e)
          case Ok(l) => Ok(SyscountTable(t.calls + [tokens[0]], t.latencies + [l]))
        else Ok(t)
  }

  /** transform_syscount: every line is a candidate row. */
  function SyscountSpec(lines: seq<string>, toFloat: string -> Option<real>): (r: Result<SyscountTable>)
    ensures r.Err? ==> r.error == ValueError || r.error == ZeroDivisionError
  {
    SyscountRows(TokenRows(lines), toFloat)
  }

  lemma {:induction false} SyscountErrSticky(p: seq<seq<string>>, q: seq<seq<string>>,
                                             toFloat: string -> Option<real>)
    requires SyscountRows(p, toFloat).Err?
    ensures SyscountRows(p + q, toFloat) == SyscountRows(p, toFloat)
    decreases |q|
  {
    if q == [] {
      assert p + q == p;
    } else {
      assert Init(p + q) == p + Init(q);
      SyscountErrSticky(p, Init(q), toFloat);
    }
  }

  method TransformSyscount(lines: seq<string>, toFloat: string -> Option<real>) returns (r: Result<SyscountTable>)
    ensures r == SyscountSpec(lines, toFloat)
  {
    var calls: seq<string> := [];
    var latencies: seq<real> := [];
    var rows := SplitLines(lines);
    for i := 0 to |rows|
      invariant SyscountRows(rows[..i], toFloat) == Ok(SyscountTable(calls, latencies))
    {
      var elements := rows[i];
      SyscountStep(rows, i, SyscountTable(calls, latencies), toFloat);
      if |elements| == 3 && IsDecimal(elements[2]) {
        var latency := SyscountLatency(elements, toFloat);
        if latency.Err? {
          SyscountErrSticky(rows[..i + 1], rows[i + 1..], toFloat);
          assert rows[..i + 1] + rows[i + 1..] == rows;
          return Err(latency.error);
        }
        calls := calls + [elements[0]];
        latencies := latencies + [latency.value];
      }
    }
    assert rows[..|rows|] == rows;
    return Ok(SyscountTable(calls, latencies));
  }

  /** Row i applied to the table of the rows before it. */
  lemma SyscountStep(rows: seq<seq<string>>, i: nat, t: SyscountTable, toFloat: string -> Option<real>)
    requires i < |rows| && SyscountRows(rows[..i], toFloat) == Ok(t)
    ensures var tokens := rows[i];
      var r := SyscountRows(rows[..i + 1], toFloat);
      (!SyscountKeeps(tokens) ==> r == Ok(t)) &&
      (SyscountKeeps(tokens) && SyscountLatency(tokens, toFloat).Err? ==>
         r == Err(SyscountLatency(tokens, toFloat).error)) &&
      (SyscountKeeps(tokens) && SyscountLatency(tokens, toFloat).Ok? ==>
         r == Ok(SyscountTable(t.calls + [tokens[0]], t.latencies + [SyscountLatency(tokens, toFloat).value])))
  {
    assert Init(rows[..i + 1]) == rows[..i] && Last(rows[..i + 1]) == rows[i];
  }

  predicate AllLatenciesDefined(kept: seq<seq<string>>, toFloat: string -> Option<real>)
  {
    forall k :: 0 <= k < |kept| ==> |kept[k]| == 3 && SyscountLatency(kept[k], toFloat).Ok?
  }

  lemma AllLatenciesSnoc(kept: seq<seq<string>>, tokens: seq<string>, toFloat: string -> Option<real>)
    requires |tokens| == 3
    ensures AllLatenciesDefined(kept + [tokens], toFloat) <==>
      AllLatenciesDefined(kept, toFloat) && SyscountLatency(tokens, toFloat).Ok?
  {
    var all := kept + [tokens];
    assert all[|kept|] == tokens;
    assert forall k :: 0 <= k < |kept| ==> all[k] == kept[k];
  }

  /** The syscount decode succeeds iff every kept row's latency can be computed. */
  lemma {:induction false} SyscountSucceeds(rows: seq<seq<string>>, toFloat: string -> Option<real>)
    ensures SyscountRows(rows, toFloat).Ok? <==> AllLatenciesDefined(Filter(rows, SyscountKeeps), toFloat)
    decreases |rows|
  {
    if rows != [] {
      var p := Init(rows);
      SyscountSucceeds(p, toFloat);
      var tokens := Last(rows);
      if SyscountKeeps(tokens) {
        assert Filter(rows, SyscountKeeps) == Filter(p, SyscountKeeps) + [tokens];
        AllLatenciesSnoc(Filter(p, SyscountKeeps), tokens, toFloat);
      } else {
        assert Filter(rows, SyscountKeeps) == Filter(p, SyscountKeeps);
      }
    }
  }

  /** A successful decode holds exactly the kept rows, in order: the first
      token as the call and the latency computed from that row. */
  lemma {:induction false} SyscountKeptRows(rows: seq<seq<string>>, toFloat: string -> Option<real>)
    requires SyscountRows(rows, toFloat).Ok?
    ensures var t := SyscountRows(rows, toFloat).value;
      var kept := Filter(rows, SyscountKeeps);
      |t.calls| == |kept| &&
      forall k :: 0 <= k < |kept| ==>
        t.calls[k] == kept[k][0] && SyscountLatency(kept[k], toFloat) == Ok(t.latencies[k])
    decreases |rows|
  {
    if rows != [] {
      var p := Init(rows);
      SyscountKeptRows(p, toFloat);
      var kp := Filter(p, SyscountKeeps);
      var kept := Filter(rows, SyscountKeeps);
      var tokens := Last(rows);
      if SyscountKeeps(tokens) {
        assert kept == kp + [tokens];
        assert forall k :: 0 <= k < |kp| ==> kept[k] == kp[k];
      } else {
        assert kept == kp;
      }
    }
  }

  // ----- runqlat and biolatency histograms -----

  datatype Histogram = Histogram(bins: seq<string>, counts: seq<int>)

  /** The data-line test of runqlat: more than four tokens, not the `usecs` heading. */
  predicate RunqlatKeeps(tokens: seq<string>)
  {
    |tokens| > 4 && tokens[0] != "usecs"
  }

  /** The bin label: the first three tokens joined by single spaces. */
  function RunqlatBin(tokens: seq<string>): string
    requires |tokens| > 4
  {
    Join(" ", tokens[..3])
  }

  function RunqlatRows(rows: seq<seq<string>>): (r: Result<Histogram>)
    ensures r.Ok? ==> |r.value.bins| == |r.value.counts|
    ensures r.Err? ==> r.error == ValueError
    decreases |rows|
  {
    if rows == [] then Ok(Histogram([], []))
    else
      match RunqlatRows(Init(rows))
      case Err(e) => Err(e)
      case Ok(h) =>
        var tokens := Last(rows);
        if RunqlatKeeps(tokens) then
          match ParseInt(tokens[4])
          case Err(e) => Err(e)
          case Ok(c) => Ok(Histogram(h.bins + [RunqlatBin(tokens)], h.counts + [c]))
        else Ok(h)
  }

  /** transform_runqlat: the first line ("Tracing ...") is skipped; no line
      at all raises StopIteration. */
  function RunqlatSpec(lines: seq<string>): (r: Result<Histogram>)
    ensures r.Err? ==> r.error == ValueError || r.error == StopIteration
  {
    if lines == [] then Err(StopIteration) else RunqlatRows(TokenRows(lines[1..]))
  }

  lemma {:induction false} RunqlatErrSticky(p: seq<seq<string>>, q: seq<seq<string>>)
    requires RunqlatRows(p).Err?
    ensures RunqlatRows(p + q) == RunqlatRows(p)
    decreases |q|
  {
    if q == [] {
      assert p + q == p;
    } else {
      assert Init(p + q) == p + Init(q);
      RunqlatErrSticky(p, Init(q));
    }
  }

  method TransformRunqlat(lines: seq<string>) returns (r: Result<Histogram>)
    ensures r == RunqlatSpec(lines)
  {
    if |lines| == 0 {
      return Err(StopIteration);
    }
    var intervals: seq<string> := [];
    var counts: seq<int> := [];
    var rows := SplitLines(lines[1..]);
    for i := 0 to |rows|
      invariant RunqlatRows(rows[..i]) == Ok(Histogram(intervals, counts))
    {
      var elements := rows[i];
      assert Init(rows[..i + 1]) == rows[..i] && Last(rows[..i + 1]) == elements;
      if |elements| > 4 && elements[0] != "usecs" {
        var count := ParseInt(elements[4]);
        if count.Err? {
          RunqlatErrSticky(rows[..i + 1], rows[i + 1..]);
          assert rows[..i + 1] + rows[i + 1..] == rows;
          return Err(count.error);
        }
        intervals := intervals + [Join(" ", elements[..3])];
        counts := counts + [count.value];
      }
    }
    assert rows[..|rows|] == rows;
    return Ok(Histogram(intervals, counts));
  }

  predicate AllCountsParse(kept: seq<seq<string>>)
  {
    forall k :: 0 <= k < |kept| ==> |kept[k]| > 4 && ParseInt(kept[k][4]).Ok?
  }

  /** The runqlat decode succeeds iff every kept row's count is an integer. */
  lemma {:induction false} RunqlatSucceeds(rows: seq<seq<string>>)
    ensures RunqlatRows(rows).Ok? <==> AllCountsParse(Filter(rows, RunqlatKeeps))
    decreases |rows|
  {
    if rows != [] {
      var p := Init(rows);
      RunqlatSucceeds(p);
      var kp := Filter(p, RunqlatKeeps);
      var kept := Filter(rows, RunqlatKeeps);
      var tokens := Last(rows);
      if RunqlatKeeps(tokens) {
        assert kept == kp + [tokens];
        assert forall k :: 0 <= k < |kp| ==> kept[k] == kp[k];
        assert kept[|kp|] == tokens;
        if RunqlatRows(p).Err? {
          var k :| 0 <= k < |kp| && ParseInt(kp[k][4]).Err?;
          assert kept[k] == kp[k];
        } else {
          assert RunqlatRows(rows).Ok? <==> ParseInt(tokens[4]).Ok?;
          if ParseInt(tokens[4]).Ok? {
            forall k | 0 <= k < |kept| ensures ParseInt(kept[k][4]).Ok? {
              if k < |kp| {
                assert kept[k] == kp[k];
              } else {
                assert kept[k] == tokens;
              }
            }
          } else {
            assert !ParseInt(kept[|kp|][4]).Ok?;
          }
        }
      } else {
        assert kept == kp;
      }
    }
  }

  /** A successful runqlat decode holds one bin and one count per kept row,
      in order. */
  lemma {:induction false} RunqlatKeptRows(rows: seq<seq<string>>)
    requires RunqlatRows(rows).Ok?
    ensures var h := RunqlatRows(rows).value;
      var kept := Filter(rows, RunqlatKeeps);
      |h.bins| == |kept| &&
      forall k :: 0 <= k < |kept| ==>
        h.bins[k] == RunqlatBin(kept[k]) && ParseInt(kept[k][4]) == Ok(h.counts[k])
    decreases |rows|
  {
    if rows != [] {
      var p := Init(rows);
      RunqlatKeptRows(p);
      var kp := Filter(p, RunqlatKeeps);
      var kept := Filter(rows, RunqlatKeeps);
      var tokens := Last(rows);
      if RunqlatKeeps(tokens) {
        assert kept == kp + [tokens];
        assert forall k :: 0 <= k < |kp| ==> kept[k] == kp[k];
      } else {
        assert kept == kp;
      }
    }
  }

  /** One entry of the decoded biolatency literal. */
  datatype Interval = Interval(start: int, end: int, count: int)

  /** `str(start) + "->" + str(end)`. */
  function IntervalLabel(e: Interval): string
  {
    IntToString(e.start) + "->" + IntToString(e.end)
  }

  /** Reads a label back: the text before its first `>`, less the `-`, and
      the text after it. */
  function ParseIntervalLabel(bin: string): Result<(int, int)>
  {
    var pieces := Split(bin, '>');
    if |pieces| != 2 || pieces[0] == "" || pieces[0][|pieces[0]| - 1] != '-' then Err(ValueError)
    else
      match ParseInt(pieces[0][..|pieces[0]| - 1])
      case Err(e) => Err(e)
      case Ok(s) =>
        match ParseInt(pieces[1])
        case Err(e) => Err(e)
        case Ok(t) => Ok((s, t))
  }

  /** The label determines the interval: it reads back as (start, end). */
  lemma IntervalLabelRoundTrip(e: Interval)
    ensures ParseIntervalLabel(IntervalLabel(e)) == Ok((e.start, e.end))
  {
    var a := IntToString(e.start);
    var b := IntToString(e.end);
    NoArrowInInt(e.start);
    NoArrowInInt(e.end);
    LabelPieces(a, b);
    var first := a + "-";
    assert first[..|first| - 1] == a;
    IntRoundTrip(e.start);
    IntRoundTrip(e.end);
  }

  lemma NoArrowInInt(n: int)
    ensures '>' !in IntToString(n)
  {
    IntToStringChars(n);
  }

  /** A label splits at its one `>` into the start with its `-`, and the end. */
  lemma LabelPieces(a: string, b: string)
    requires '>' !in a && '>' !in b
    ensures Split(a + "->" + b, '>') == [a + "-", b]
  {
    var s := a + "->" + b;
    var i := |a| + 1;
    assert s[..i] == a + "-";
    assert s[i + 1..] == b;
    IndexOfAt(s, '>', i);
  }

  /** transform_biolatency on the decoded entries: an empty body gives empty
      lists; otherwise a body that does not decode raises. */
  function BiolatencySpec(body: string, literal: Option<seq<Interval>>): (r: Result<Histogram>)
    ensures r.Err? <==> body != "" && literal.None?
    ensures r.Err? ==> r.error == LiteralError
  {
    if body == "" then Ok(Histogram([], []))
    else
      match literal
      case None => Err(LiteralError)
      case Some(entries) => Ok(Histogram(Labels(entries), Counts(entries)))
  }

  /** The label of each entry, in order. */
  function Labels(entries: seq<Interval>): (r: seq<string>)
    ensures |r| == |entries|
    decreases |entries|
  {
    if entries == [] then [] else Labels(Init(entries)) + [IntervalLabel(Last(entries))]
  }

  /** The count of each entry, in order. */
  function Counts(entries: seq<Interval>): (r: seq<int>)
    ensures |r| == |entries|
    decreases |entries|
  {
    if entries == [] then [] else Counts(Init(entries)) + [Last(entries).count]
  }

  /** Entry k gives bin k and count k. */
  lemma {:induction false} LabelsAt(entries: seq<Interval>, k: nat)
    requires k < |entries|
    ensures Labels(entries)[k] == IntervalLabel(entries[k])
    ensures Counts(entries)[k] == entries[k].count
    decreases |entries|
  {
    if k < |entries| - 1 {
      LabelsAt(Init(entries), k);
    }
  }

  /** A decoded body gives one bin and one count per entry, in order; each
      bin reads back as its entry's interval. */
  lemma BiolatencyBins(body: string, literal: Option<seq<Interval>>)
    requires body != "" && literal.Some?
    ensures var r := BiolatencySpec(body, literal);
      r.Ok? && |r.value.bins| == |r.value.counts| == |literal.value| &&
      forall k :: 0 <= k < |literal.value| ==>
        ParseIntervalLabel(r.value.bins[k]) == Ok((literal.value[k].start, literal.value[k].end)) &&
        r.value.counts[k] == literal.value[k].count
  {
    var entries := literal.value;
    forall k | 0 <= k < |entries|
      ensures ParseIntervalLabel(Labels(entries)[k]) == Ok((entries[k].start, entries[k].end))
      ensures Counts(entries)[k] == entries[k].count
    {
      LabelsAt(entries, k);
      IntervalLabelRoundTrip(entries[k]);
    }
  }

  method TransformBiolatency(body: string, literal: Option<seq<Interval>>) returns (r: Result<Histogram>)
    ensures r == BiolatencySpec(body, literal)
  {
    var bins: seq<string> := [];
    var counts: seq<int> := [];
    if body != "" {
      if literal.None? {
        return Err(LiteralError);
      }
      var data := literal.value;
      for k := 0 to |data|
        invariant bins == Labels(data[..k]) && counts == Counts(data[..k])
      {
        assert Init(data[..k + 1]) == data[..k] && Last(data[..k + 1]) == data[k];
        bins := bins + [IntToString(data[k].start) + "->" + IntToString(data[k].end)];
        counts := counts + [data[k].count];
      }
      assert data[..|data|] == data;
    }
    return Ok(Histogram(bins, counts));
  }

  // ----- biosnoop -----

  /** Read and write counts and latency sums over the data rows. */
  datatype Tally = Tally(readCount: nat, writeCount: nat, readLatency: real, writeLatency: real)

  datatype Averages = Averages(writeAvg: real, readAvg: real)

  /** A data row is a write iff its fifth token is `W`. */
  predicate IsWrite(tokens: seq<string>)
  {
    |tokens| > 4 && tokens[4] == "W"
  }

  /** What one data row adds: `elements[4]` picks the side (IndexError when
      it is missing) and `float(elements[-1])` the latency. */
  function BiosnoopRow(t: Tally, tokens: seq<string>, toFloat: string -> Option<real>): (r: Result<Tally>)
    ensures r.Err? ==> r.error == IndexError || r.error == ValueError
  {
    if |tokens| <= 4 then Err(IndexError)
    else
      match toFloat(tokens[|tokens| - 1])
      case None => Err(ValueError)
      case Some(l) =>
        if tokens[4] == "W" then Ok(t.(writeCount := t.writeCount + 1, writeLatency := t.writeLatency + l))
        else Ok(t.(readCount := t.readCount + 1, readLatency := t.readLatency + l))
  }

  function BiosnoopTally(rows: seq<seq<string>>, toFloat: string -> Option<real>): (r: Result<Tally>)
    ensures r.Err? ==> r.error == IndexError || r.error == ValueError
    decreases |rows|
  {
    if rows == [] then Ok(Tally(0, 0, 0.0, 0.0))
    else
      match BiosnoopTally(Init(rows), toFloat)
      case Err(e) => Err(e)
      case Ok(t) => BiosnoopRow(t, Last(rows), toFloat)
  }

  /** The average of a latency sum over `count` rows, 0 when there are none. */
  function Average(sum: real, count: nat): real
  {
    if count != 0 then sum / count as real else 0.0
  }

  /** transform_biosnoop: the header is skipped; no line at all raises StopIteration. */
  function BiosnoopSpec(lines: seq<string>, toFloat: string -> Option<real>): (r: Result<Averages>)
    ensures r.Err? ==> r.error == StopIteration || r.error == IndexError || r.error == ValueError
  {
    if lines == [] then Err(StopIteration)
    else
      match BiosnoopTally(TokenRows(lines[1..]), toFloat)
      case Err(e) => Err(e)
      case Ok(t) => Ok(Averages(Average(t.writeLatency, t.writeCount), Average(t.readLatency, t.readCount)))
  }

  lemma {:induction false} BiosnoopErrSticky(p: seq<seq<string>>, q: seq<seq<string>>,
                                             toFloat: string -> Option<real>)
    requires BiosnoopTally(p, toFloat).Err?
    ensures BiosnoopTally(p + q, toFloat) == BiosnoopTally(p, toFloat)
    decreases |q|
  {
    if q == [] {
      assert p + q == p;
    } else {
      assert Init(p + q) == p + Init(q);
      BiosnoopErrSticky(p, Init(q), toFloat);
    }
  }

  method TransformBiosnoop(lines: seq<string>, toFloat: string -> Option<real>) returns (r: Result<Averages>)
    ensures r == BiosnoopSpec(lines, toFloat)
  {
    if |lines| == 0 {
      return Err(StopIteration);
    }
    var rows := SplitLines(lines[1..]);
    var tally := TallyRows(rows, toFloat);
    if tally.Err? {
      return Err(tally.error);
    }
    var t := tally.value;
    return Ok(Averages(Average(t.writeLatency, t.writeCount), Average(t.readLatency, t.readCount)));
  }

  /** The loop of transform_biosnoop over the data rows, with its four
      counters. */
  method TallyRows(rows: seq<seq<string>>, toFloat: string -> Option<real>) returns (r: Result<Tally>)
    ensures r == BiosnoopTally(rows, toFloat)
  {
    var readCount: nat, writeCount: nat := 0, 0;
    var readLat: real, writeLat: real := 0.0, 0.0;
    for i := 0 to |rows|
      invariant BiosnoopTally(rows[..i], toFloat) == Ok(Tally(readCount, writeCount, readLat, writeLat))
    {
      var elements := rows[i];
      ghost var before := Tally(readCount, writeCount, readLat, writeLat);
      BiosnoopStep(rows, i, before, toFloat);
      if |elements| <= 4 {
        BiosnoopStops(rows, i, toFloat);
        return Err(IndexError);
      }
      var latency := toFloat(elements[|elements| - 1]);
      if latency.None? {
        BiosnoopStops(rows, i, toFloat);
        return Err(ValueError);
      }
      if elements[4] == "W" {
        writeCount := writeCount + 1;
        writeLat := writeLat + latency.value;
      } else {
        readCount := readCount + 1;
        readLat := readLat + latency.value;
      }
      assert BiosnoopRow(before, elements, toFloat) == Ok(Tally(readCount, writeCount, readLat, writeLat));
    }
    assert rows[..|rows|] == rows;
    return Ok(Tally(readCount, writeCount, readLat, writeLat));
  }

  /** Row i applied to the tally of the rows before it. */
  lemma BiosnoopStep(rows: seq<seq<string>>, i: nat, t: Tally, toFloat: string -> Option<real>)
    requires i < |rows| && BiosnoopTally(rows[..i], toFloat) == Ok(t)
    ensures BiosnoopTally(rows[..i + 1], toFloat) == BiosnoopRow(t, rows[i], toFloat)
  {
    assert Init(rows[..i + 1]) == rows[..i] && Last(rows[..i + 1]) == rows[i];
  }

  /** An error on row i is the result for all the rows. */
  lemma BiosnoopStops(rows: seq<seq<string>>, i: nat, toFloat: string -> Option<real>)
    requires i < |rows| && BiosnoopTally(rows[..i + 1], toFloat).Err?
    ensures BiosnoopTally(rows, toFloat) == BiosnoopTally(rows[..i + 1], toFloat)
  {
    BiosnoopErrSticky(rows[..i + 1], rows[i + 1..], toFloat);
    assert rows[..i + 1] + rows[i + 1..] == rows;
  }

  /** A row biosnoop can use: it has a fifth token and its last token is a latency. */
  ghost predicate Timed(tokens: seq<string>, toFloat: string -> Option<real>)
  {
    |tokens| > 4 && toFloat(tokens[|tokens| - 1]).Some?
  }

  /** The tally succeeds exactly when every row is usable. */
  lemma {:induction false} BiosnoopOkIff(rows: seq<seq<string>>, toFloat: string -> Option<real>)
    ensures BiosnoopTally(rows, toFloat).Ok? <==> forall k :: 0 <= k < |rows| ==> Timed(rows[k], toFloat)
    decreases |rows|
  {
    if rows != [] {
      var init := Init(rows);
      BiosnoopOkIff(init, toFloat);
      assert forall k :: 0 <= k < |init| ==> init[k] == rows[k];
      assert Last(rows) == rows[|rows| - 1];
    }
  }

  /** Every row is counted once, and the writes are the rows whose fifth token is `W`. */
  lemma {:induction false} BiosnoopCounts(rows: seq<seq<string>>, toFloat: string -> Option<real>)
    ensures var r := BiosnoopTally(rows, toFloat);
      r.Ok? ==> r.value.readCount + r.value.writeCount == |rows| && r.value.writeCount == |Filter(rows, IsWrite)|
    decreases |rows|
  {
    if rows != [] {
      BiosnoopCounts(Init(rows), toFloat);
    }
  }

  /** A decoded biosnoop dump: the header line is skipped, the data lines
      are usable, and a side without rows averages to 0. */
  lemma BiosnoopAverages(lines: seq<string>, toFloat: string -> Option<real>)
    ensures var r := BiosnoopSpec(lines, toFloat);
      var rows := if lines == [] then [] else TokenRows(lines[1..]);
      (r.Ok? <==> lines != [] && forall k :: 0 <= k < |rows| ==> Timed(rows[k], toFloat)) &&
      (r.Ok? && Filter(rows, IsWrite) == [] ==> r.value.writeAvg == 0.0) &&
      (r.Ok? && |Filter(rows, IsWrite)| == |rows| ==> r.value.readAvg == 0.0)
  {
    if lines != [] {
      var rows := TokenRows(lines[1..]);
      BiosnoopOkIff(rows, toFloat);
      BiosnoopCounts(rows, toFloat);
    }
  }

  // ----- dispatch -----

  /** The five tools the pipeline knows, in the order transform_ebpf tests them. */
  const SCRIPTS: seq<string> := ["execsnoop", "syscount", "runqlat", "biosnoop", "biolatency"]

  /** What the decoders read from one raw S3 object. */
  datatype RawObject = RawObject(lines: seq<string>, body: string, literal: Option<seq<Interval>>)

  datatype ToolData =
    | ExecsnoopData(columns: Columns)
    | SyscountData(syscalls: SyscountTable)
    | HistogramData(histogram: Histogram)
    | BiosnoopData(averages: Averages)

  function Wrap<T>(r: Result<T>, f: T -> ToolData): Result<ToolData>
  {
    match r
    case Err(e) => Err(e)
    case Ok(v) => Ok(f(v))
  }

  function TransformSpec(script: string, raw: RawObject, node: string,
                         toFloat: string -> Option<real>): Result<ToolData>
  {
    if script == "execsnoop" then Wrap(ExecsnoopSpec(raw.lines, node), c => ExecsnoopData(c))
    else if script == "syscount" then Wrap(SyscountSpec(raw.lines, toFloat), t => SyscountData(t))
    else if script == "runqlat" then Wrap(RunqlatSpec(raw.lines), h => HistogramData(h))
    else if script == "biosnoop" then Wrap(BiosnoopSpec(raw.lines, toFloat), a => BiosnoopData(a))
    else if script == "biolatency" then Wrap(BiolatencySpec(raw.body, raw.literal), h => HistogramData(h))
    else Err(InvalidScriptName)
  }

  method TransformEbpf(script: string, raw: RawObject, node: string,
                       toFloat: string -> Option<real>) returns (r: Result<ToolData>)
    ensures r == TransformSpec(script, raw, node, toFloat)
  {
    if script == "execsnoop" {
      var c := TransformExecsnoop(raw.lines, node);
      return Wrap(c, c => ExecsnoopData(c));
    }
    if script == "syscount" {
      var t := TransformSyscount(raw.lines, toFloat);
      return Wrap(t, t => SyscountData(t));
    }
    if script == "runqlat" {
      var h := TransformRunqlat(raw.lines);
      return Wrap(h, h => HistogramData(h));
    }
    if script == "biosnoop" {
      var a := TransformBiosnoop(raw.lines, toFloat);
      return Wrap(a, a => BiosnoopData(a));
    }
    if script == "biolatency" {
      var h := TransformBiolatency(raw.body, raw.literal);
      return Wrap(h, h => HistogramData(h));
    }
    return Err(InvalidScriptName);
  }

  /** transform_ebpf rejects exactly the names outside the five tools, and a
      known tool never reports that error. */
  lemma TransformRejectsUnknown(script: string, raw: RawObject, node: string,
                                toFloat: string -> Option<real>)
    ensures TransformSpec(script, raw, node, toFloat) == Err(InvalidScriptName) <==> script !in SCRIPTS
  {
    var r := TransformSpec(script, raw, node, toFloat);
    if script == "execsnoop" {
      var c := ExecsnoopSpec(raw.lines, node);
      assert r == Wrap(c, c => ExecsnoopData(c));
    } else if script == "syscount" {
      var t := SyscountSpec(raw.lines, toFloat);
      assert r == Wrap(t, t => SyscountData(t));
    } else if script == "runqlat" {
      var h := RunqlatSpec(raw.lines);
      assert r == Wrap(h, h => HistogramData(h));
    } else if script == "biosnoop" {
      var a := BiosnoopSpec(raw.lines, toFloat);
      assert r == Wrap(a, a => BiosnoopData(a));
    } else if script == "biolatency" {
      var h := BiolatencySpec(raw.body, raw.literal);
      assert r == Wrap(h, h => HistogramData(h));
    }
  }
}
