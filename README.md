# ebpf-pipeline, modelled in Dafny

The pipeline profiles nodes with five bcc tracing tools and turns their text dumps into one dashboard. It works in three stages:

- **Profiling (`execute_ebpf.py`)**. A driver on each node:
  - builds each tool's command line, adding `-p <pid>` for the one tool that profiles by pid;
  - runs the tool under a timeout;
  - uploads the raw output under a dated key `KEY + mm-dd-yyyy + "/" + node + "_" + tool + ".txt"`.
- **Transformation (`lambda/transformation`)**. A Lambda takes each raw key apart into a timestamp, a node name and a script name. It decodes the dump with that tool's line parser and stores a JSON record under `KEY + timestamp + "/" + node + "_" + script + ".json"`.
- **Visualization (`lambda/visualization`)**. A second Lambda:
  - lists one date's records;
  - keeps the `.json` keys whose file names name a queried node and one of the five tools;
  - groups the kept records per tool, in listing order;
  - combines each group (syscount by call, histograms into a heatmap matrix, biosnoop averages side by side, execsnoop rows stacked);
  - stores the dashboard.

How the model is built:

- The modules follow the files:
  - `Transform`: the decoders and their shared `re.split(r"\s+", line.strip())` tokenizer.
  - `LambdaTransform`: key parsing, the record and the output path.
  - `Combine`: the aggregators.
  - `LambdaVisualize`: file-name parsing, selection, grouping and the dashboard key.
  - `ExecuteEbpf`: catalogs, dates and raw paths, command assembly, run classification, and the tool loop.
  - `Text` and `Errors` hold the Python string operations and the exception kinds they share.
- **Loops and state.** Every loop of the source is a Dafny `method` with a loop. It is proved equal to a specification function (a fold over the input's last element, or a sequence comprehension). The lemmas about that function state what the source promises.
- **Errors.** A Python exception becomes an `Err` of the matching kind, never a precondition.
- **Mutable object.** `ThreadedExecution` is a class whose `Run` updates its `process` and `output` fields.

## Model

| member | source | states |
|---|---|---|
| Text.Split | lambda/transformation/lambda_transform.py:19-21 | `s.split(c)` never returns an empty list, has at least two pieces when `c` occurs, and no piece holds `c` |
| Text.JoinSplit | lambda/transformation/lambda_transform.py:21-24 | joining the pieces of `s.split(c)` with `c` gives `s` back |
| Text.SplitJoin | lambda/transformation/lambda_transform.py:21-24 | splitting `c.join(parts)` gives `parts` back when no part holds `c` |
| Text.SplitLength | lambda/transformation/lambda_transform.py:19-20 | `s.split(c)` has one piece more than `s` has occurrences of `c` |
| Text.SplitPieceChars | lambda/transformation/lambda_transform.py:19-21 | every character of every piece comes from the split string |
| Text.SplitLast | lambda/visualization/lambda_visualize.py:54-56 | appending `c + b`, with `b` free of `c`, adds exactly the last piece `b` |
| Text.RFind | lambda/visualization/lambda_visualize.py:53 | `rfind` gives -1 or an index holding `c`, and no later index holds `c` |
| Text.NatToString | execute_ebpf.py:137 | `str(n)` for `n >= 0` is a nonempty digit string, one digit exactly when `n < 10` |
| Text.DigitsMeaning | lambda/transformation/transform.py:125 | the digit reader accepts exactly the nonempty ASCII digit strings, with their decimal value |
| Text.ParseUnsigned | lambda/transformation/transform.py:125 | `int()` of a digit string with no sign is its decimal value |
| Text.NatToStringDigits | execute_ebpf.py:137 | the digits of `str(n)` read back as `n` |
| Text.IntRoundTrip | lambda/transformation/transform.py:79 | `int(str(n)) == n` for every integer, negative ones included |
| Text.IntToStringChars | lambda/transformation/transform.py:79 | `str(n)` holds only digits and at most a leading minus sign |
| Text.DecimalOfParts | lambda/transformation/transform.py:60-61 | every `[-]digits.digits` string matches the syscount latency pattern |
| Text.DecimalHasPoint | lambda/transformation/transform.py:60-61 | the pattern requires a decimal point, so a bare integer never matches |
| Transform.TrimLeftShape | lambda/transformation/transform.py:29 | `lstrip` removes exactly a whitespace prefix and leaves no leading whitespace |
| Transform.TrimRightShape | lambda/transformation/transform.py:29 | `rstrip` removes exactly a whitespace suffix and leaves no trailing whitespace |
| Transform.StripEmpty | lambda/transformation/transform.py:29 | `strip()` is empty iff the line is all whitespace, else it starts with a non-space |
| Transform.WordLengthShape | lambda/transformation/transform.py:28-30 | the first token is the maximal whitespace-free prefix |
| Transform.WordsShape | lambda/transformation/transform.py:28-30 | the whitespace runs cut the text into nonempty whitespace-free words, none iff the text is blank |
| Transform.TokenizeShape | lambda/transformation/transform.py:28-30 | no token holds whitespace; the result is `[""]` iff the line is blank, and otherwise no token is empty |
| Transform.Tokenize | lambda/transformation/transform.py:28-30 | `re.split(r"\s+", line.strip())` always yields at least one token |
| Transform.TokenizeKeepsText | lambda/transformation/transform.py:28-30 | the tokens concatenated are the line's non-whitespace characters in order |
| Transform.ConcatWords | lambda/transformation/transform.py:28-30 | the words concatenated are the non-whitespace characters of the text |
| Transform.WordsOfJoin | lambda/transformation/transform.py:28-30 | nonempty whitespace-free words joined by single spaces split back into those words |
| Transform.TokenizeJoin | lambda/transformation/transform.py:28-30 | tokenizing tokens joined by single spaces gives the tokens back |
| Transform.TokenRowsAt | lambda/transformation/transform.py:34-35 | row k of the token rows is line k tokenized |
| Transform.TokenRows | lambda/transformation/transform.py:34-35 | one token row per line |
| Transform.TokenRowsNonEmpty | lambda/transformation/transform.py:34-35 | every line tokenizes to at least one token |
| Transform.SplitLines | lambda/transformation/transform.py:34-35 | the loop tokenizes every line, in order |
| Transform.Filter | lambda/transformation/transform.py:60-63 | the kept rows are no more than the rows, and each satisfies the filter |
| Transform.Dedup | lambda/transformation/transform.py:32 | the dict's keys are the header tokens without repeats, equal to the header when it has none |
| Transform.DedupFirstOccurrence | lambda/transformation/transform.py:32 | the keys are in first-insertion order: a key comes before another only if it occurs in the header before any copy of the other |
| Transform.AppendCells | lambda/transformation/transform.py:36-43 | one data row adds cells to the existing columns only and creates no key |
| Transform.ExecsnoopSpec | lambda/transformation/transform.py:25-26 | execsnoop fails exactly on an empty dump, with StopIteration from the first `next` |
| Transform.TransformExecsnoop | lambda/transformation/transform.py:23-48 | the decoder loop computes the execsnoop specification |
| Transform.AppendRow | lambda/transformation/transform.py:36-43 | the inner loop appends exactly one row's cells |
| Transform.ExecsnoopRows | lambda/transformation/transform.py:34-43 | the data rows fill the header's columns and add no key |
| Transform.RowCells | lambda/transformation/transform.py:36-43 | the first n-1 columns get one token each, the last gets `" ".join(tokens[n-1:])`, and a shorter row fills only its first columns |
| Transform.AppendCellsColumn | lambda/transformation/transform.py:36-43 | one row appends to column j exactly that row's j-th cell, if it reaches column j |
| Transform.ExecsnoopRowsColumn | lambda/transformation/transform.py:34-43 | over all data rows, column j is the j-th cells of the rows, in row order |
| Transform.FirstColumnLength | lambda/transformation/transform.py:45-47 | the first column has one cell per data row with a token |
| Transform.ExecsnoopTableColumns | lambda/transformation/transform.py:31-47 | the keys are the header names in order, then `node`; each column holds its cells in row order; the node column repeats the node once per row |
| Transform.ExecsnoopTableNode | lambda/transformation/transform.py:45-47 | the node column is the node name repeated once per data row |
| Transform.ExecsnoopColumns | lambda/transformation/transform.py:23-48 | a dump with a distinct header gives the header columns, the cells in row order, and one node cell per data line |
| Transform.ExecsnoopSpecTable | lambda/transformation/transform.py:25-35 | the first line is the header and the remaining lines are the data rows |
| Transform.ExecsnoopNodeColumn | lambda/transformation/transform.py:45-47 | the node column has exactly one entry per data line, each the node argument |
| Transform.ColumnOfFullRows | lambda/transformation/transform.py:36-43 | when every row reaches the last column, every column has one cell per row |
| Transform.JoinSplitAt | lambda/transformation/transform.py:40 | joining a prefix with the joined rest gives the whole row joined |
| Transform.RowCellsKeepText | lambda/transformation/transform.py:36-43 | no text is lost: a row's cells joined by spaces equal its tokens joined by spaces |
| Transform.SyscountLatency | lambda/transformation/transform.py:64 | `float(last) / float(count)` fails only with ValueError or ZeroDivisionError |
| Transform.SyscountRows | lambda/transformation/transform.py:58-65 | `calls` and `latencies` always have equal length |
| Transform.SyscountSpec | lambda/transformation/transform.py:51-65 | syscount can fail only with ValueError or ZeroDivisionError |
| Transform.TransformSyscount | lambda/transformation/transform.py:51-65 | the decoder loop computes the syscount specification |
| Transform.SyscountStep | lambda/transformation/transform.py:58-64 | a discarded line changes nothing; a kept line appends its call and latency or raises |
| Transform.SyscountErrSticky | lambda/transformation/transform.py:58-64 | an exception ends the decode and later lines do not matter |
| Transform.AllLatenciesSnoc | lambda/transformation/transform.py:64 | the kept rows all have latencies iff the earlier rows do and the new one does |
| Transform.SyscountSucceeds | lambda/transformation/transform.py:58-65 | syscount succeeds iff every kept line, with three tokens and a decimal last token, has a computable latency |
| Transform.SyscountKeptRows | lambda/transformation/transform.py:58-65 | the result holds exactly the kept lines in order: first token as call, the line's latency as latency |
| Transform.RunqlatRows | lambda/transformation/transform.py:120-127 | `bins` and `counts` always have equal length; only `int()` can fail |
| Transform.RunqlatSpec | lambda/transformation/transform.py:113-127 | runqlat fails only with StopIteration on an empty dump or ValueError from `int` |
| Transform.TransformRunqlat | lambda/transformation/transform.py:113-127 | the decoder loop skips the first line and computes the runqlat specification |
| Transform.RunqlatErrSticky | lambda/transformation/transform.py:120-125 | an exception ends the decode and later lines do not matter |
| Transform.RunqlatSucceeds | lambda/transformation/transform.py:120-125 | runqlat succeeds iff `int(tokens[4])` parses on every kept line |
| Transform.RunqlatKeptRows | lambda/transformation/transform.py:119-127 | one bin and one count per kept line (more than four tokens, first not `usecs`), in order, the bin being the first three tokens joined |
| Transform.IntervalLabelRoundTrip | lambda/transformation/transform.py:78-80 | a `start->end` label reads back as (start, end), so it determines the interval |
| Transform.LabelPieces | lambda/transformation/transform.py:78-80 | a label splits at its single `>` into the start with its `-`, and the end |
| Transform.BiolatencySpec | lambda/transformation/transform.py:75-83 | biolatency fails iff the body is nonempty and does not decode; an empty body gives empty lists |
| Transform.Labels | lambda/transformation/transform.py:77-80 | one label per entry |
| Transform.LabelsAt | lambda/transformation/transform.py:77-81 | bin k is the label of entry k and count k is entry k's count |
| Transform.BiolatencyBins | lambda/transformation/transform.py:75-83 | a decoded body gives one bin and one count per entry, in order, each bin reading back as its entry's interval |
| Transform.TransformBiolatency | lambda/transformation/transform.py:68-83 | the decoder loop computes the biolatency specification |
| Transform.BiosnoopRow | lambda/transformation/transform.py:100-105 | one data line fails only with IndexError (no fifth token) or ValueError (bad latency) |
| Transform.BiosnoopSpec | lambda/transformation/transform.py:86-110 | biosnoop fails only with StopIteration on an empty dump, IndexError or ValueError |
| Transform.TransformBiosnoop | lambda/transformation/transform.py:86-110 | the decoder computes the biosnoop specification |
| Transform.TallyRows | lambda/transformation/transform.py:97-105 | the loop's four counters are the tally of the data lines |
| Transform.BiosnoopTally | lambda/transformation/transform.py:97-105 | tallying the data lines fails only with IndexError or ValueError |
| Transform.BiosnoopStep | lambda/transformation/transform.py:100-105 | one line moves the tally exactly as that line's classification says |
| Transform.BiosnoopErrSticky | lambda/transformation/transform.py:97-105 | an exception ends the decode and later lines do not matter |
| Transform.BiosnoopOkIff | lambda/transformation/transform.py:97-105 | the tally succeeds iff every data line has a fifth token and a last token `float()` accepts |
| Transform.BiosnoopCounts | lambda/transformation/transform.py:97-105 | every data line is counted once: reads + writes = data lines, writes = lines whose fifth token is `W` |
| Transform.BiosnoopAverages | lambda/transformation/transform.py:96-110 | the header is skipped; decoding succeeds iff every data line is usable; an average is 0 when its side has no line |
| Transform.TransformEbpf | lambda/transformation/transform.py:8-20 | the dispatch computes the decoder of the named tool |
| Transform.TransformRejectsUnknown | lambda/transformation/transform.py:8-20 | "Invalid script name" is raised exactly for names outside the five tools |
| LambdaTransform.BaseName | lambda/transformation/lambda_transform.py:21 | the text before the first `.` holds no `.` |
| LambdaTransform.ParseKey | lambda/transformation/lambda_transform.py:19-24 | only IndexError can be raised; the timestamp holds no `/` and the script name no `_` |
| LambdaTransform.ParseKeyFails | lambda/transformation/lambda_transform.py:19-20 | a key is rejected iff it has fewer than two `/` |
| LambdaTransform.ParseKeyNames | lambda/transformation/lambda_transform.py:21-24 | names hold no `/` or `.`; with a `_` in the base name, `node_name + "_" + script_name` is the base name; without one the node name is empty |
| LambdaTransform.NamesFromBase | lambda/transformation/lambda_transform.py:21-24 | the same, for any base name free of `/` and `.` |
| LambdaTransform.SnocJoinSplit | lambda/transformation/lambda_transform.py:23-24 | `"_".join(parts[:-1]) + "_" + parts[-1]` is the split string |
| LambdaTransform.KeySegments | lambda/transformation/lambda_transform.py:19-20 | `dir/timestamp/file` splits into its three segments |
| LambdaTransform.BaseOfFile | lambda/transformation/lambda_transform.py:21 | the base name of `base.ext` is `base` |
| LambdaTransform.NamesOfBase | lambda/transformation/lambda_transform.py:21-24 | `node_script` splits back into node and script when the script holds no `_` |
| LambdaTransform.ParseKeyRoundTrip | lambda/transformation/lambda_transform.py:19-24 | a key `dir/timestamp/node_script.ext` parses to exactly (timestamp, node, script); node names may hold `_` |
| LambdaTransform.OutputPath | lambda/transformation/lambda_transform.py:37-38 | the result path ends in `.json` |
| LambdaTransform.LambdaHandler | lambda/transformation/lambda_transform.py:14-42 | the handler parses the key, decodes the object and builds the upload, stopping at the first exception |
| LambdaTransform.HandlerRecord | lambda/transformation/lambda_transform.py:26-38 | an upload carries the key's node, timestamp and script, `output_filepath` equal to the key, is stored at the output path, and names one of the five tools |
| Combine.RecordSamples | lambda/visualization/combine.py:45-48 | a record of syscount shape gives one triple per call |
| Combine.SamplesUpTo | lambda/visualization/combine.py:46-48 | triple k pairs the node with call k and latency k |
| Combine.CombineSyscount | lambda/visualization/combine.py:37-49 | the loops compute the grouped syscount dictionary |
| Combine.AddRecord | lambda/visualization/combine.py:45-48 | one record appends its triples in call order, or raises KeyError or IndexError |
| Combine.AllSamplesErrSticky | lambda/visualization/combine.py:44-48 | an exception ends the combine and later records do not matter |
| Combine.GroupedKeys | lambda/visualization/combine.py:41-48 | the keys are the calls seen, each once, and the dictionary has exactly the keys of its order |
| Combine.GroupedOrder | lambda/visualization/combine.py:41-48 | the defaultdict's key order is the calls in triple order with repeats dropped, first copies kept |
| Combine.GroupedFirstAppearance | lambda/visualization/combine.py:41-48 | the keys are in first-appearance order: a call precedes another only if some triple has it before any triple of the other |
| Combine.GroupedEntries | lambda/visualization/combine.py:46-48 | each call's `node` and `latencies` lists hold that call's triples in input order, paired by position and of equal length |
| Combine.CallSamplesEmpty | lambda/visualization/combine.py:46-48 | a call no triple has gathers nothing |
| Combine.EntryCountAdd | lambda/visualization/combine.py:47-48 | appending one node under a key adds one entry |
| Combine.GroupedCount | lambda/visualization/combine.py:44-48 | the entries over all calls number as many as the triples |
| Combine.AllSamplesCount | lambda/visualization/combine.py:44-48 | a successful combine has one entry per call of every record |
| Combine.AllSamplesSucceeds | lambda/visualization/combine.py:44-48 | syscount combining fails iff a record is not a syscount table or has fewer latencies than calls |
| Combine.AllSamplesErrors | lambda/visualization/combine.py:45-48 | the only errors are KeyError and IndexError |
| Combine.HeatmapAxes | lambda/visualization/combine.py:59-65 | the first loop fails only with KeyError and keeps one x tick and one count list per record |
| Combine.HeatMatrix | lambda/visualization/combine.py:67-75 | the matrix has one row per y tick and one column per node |
| Combine.HeatmapSpec | lambda/visualization/combine.py:52-76 | the heatmap fails only with KeyError (wrong shape) or ValueError (negative pad width) |
| Combine.CombineHeatmap | lambda/visualization/combine.py:52-76 | the two loops compute the heatmap specification |
| Combine.FillMatrix | lambda/visualization/combine.py:67-76 | the second loop raises ValueError iff some count list is longer than the y ticks, else fills the padded, reversed matrix |
| Combine.FillColumn | lambda/visualization/combine.py:75 | `data[:, idx] = dist_arr[::-1]` writes column idx and leaves the others unchanged |
| Combine.HeatmapAxesErrSticky | lambda/visualization/combine.py:59-65 | an exception ends the loop and later records do not matter |
| Combine.HeatmapAxesNodes | lambda/visualization/combine.py:59-65 | `x_ticks` lists the node names in input order, one per record, beside each record's counts |
| Combine.HeatmapYTicksLongest | lambda/visualization/combine.py:61-64 | no bin list is longer than the y ticks; with no record they are empty |
| Combine.HeatmapYTicksFirst | lambda/visualization/combine.py:61-64 | the y ticks are the bin list of the first strictly longest record; a later tie does not replace it |
| Combine.YTicksMax | lambda/visualization/combine.py:61-64 | the y ticks are as long as the longest bin list |
| Combine.HeatmapAxesSucceeds | lambda/visualization/combine.py:59-65 | the first loop succeeds iff every record is a histogram |
| Combine.HeatmapCells | lambda/visualization/combine.py:67-76 | the matrix is `len(y) x len(x)`; column idx is node idx's counts bottom up (`data[len(y)-1-j][idx] == counts[j]`) with zeros above |
| Combine.HeatMatrixColumn | lambda/visualization/combine.py:67-75 | a count list that fits gives exactly its padded, reversed column |
| Combine.HeatmapFails | lambda/visualization/combine.py:59-76 | the heatmap is built iff every record is a histogram and every count list fits the longest bin list |
| Combine.BiosnoopCombineSpec | lambda/visualization/combine.py:83-89 | biosnoop combining fails only with KeyError |
| Combine.CombineBiosnoop | lambda/visualization/combine.py:79-89 | the loop computes the biosnoop specification |
| Combine.BiosnoopCombineErrSticky | lambda/visualization/combine.py:85-88 | an exception ends the loop and later records do not matter |
| Combine.BiosnoopCombineZip | lambda/visualization/combine.py:83-89 | succeeds iff every record holds averages; then nodes, read and write averages have one entry per record, position k from record k |
| Combine.FrameOf | lambda/visualization/combine.py:32 | a frame fails only with KeyError or ValueError |
| Combine.FrameOfColumns | lambda/visualization/combine.py:32 | the frame's rows read down each column give back that column's cells |
| Combine.ExecsnoopCombineSpec | lambda/visualization/combine.py:30-34 | execsnoop combining fails only with KeyError or ValueError |
| Combine.CombineExecsnoop | lambda/visualization/combine.py:26-34 | the loop computes the concatenation specification |
| Combine.ExecsnoopCombineErrSticky | lambda/visualization/combine.py:31-33 | an exception ends the loop and later records do not matter |
| Combine.ExecsnoopCombineAppend | lambda/visualization/combine.py:30-34 | the rows of `p + q` are the rows of `p` followed by those of `q`; the first failure decides the error |
| Combine.ExecsnoopCombineSnoc | lambda/visualization/combine.py:31-33 | one more record appends its frame below the rows so far |
| Combine.ExecsnoopCombineOne | lambda/visualization/combine.py:32-33 | a single record's rows are its own frame |
| Combine.CombineEbpf | lambda/visualization/combine.py:11-23 | the dispatch computes the combiner of the named tool |
| Combine.CombineRejectsUnknown | lambda/visualization/combine.py:14-23 | "Invalid script name" is raised exactly outside the five tools; biolatency and runqlat share the heatmap |
| LambdaVisualize.FileName | lambda/visualization/lambda_visualize.py:53 | the slice after the last `/` less five characters holds no `/` |
| LambdaVisualize.ParseFileName | lambda/visualization/lambda_visualize.py:54-56 | the script name is the last `_`-piece and holds no `_` |
| LambdaVisualize.FileNameRoundTrip | lambda/visualization/lambda_visualize.py:54-56 | `node + "_" + script` parses to exactly (node, script) when the script holds no `_` |
| LambdaVisualize.RFindLast | lambda/visualization/lambda_visualize.py:53 | the last `c` of `a + c + b` is at `len(a)` when `b` has none |
| LambdaVisualize.ReadsOutputPath | lambda/visualization/lambda_visualize.py:53-56 | the names in a path the transformation writes read back as (node, script) |
| LambdaVisualize.ReadsTransformedKey | lambda/visualization/lambda_visualize.py:53-56 | for every raw key the transformation accepts, the visualizer recovers its node and script names |
| LambdaVisualize.GroupObjects | lambda/visualization/lambda_visualize.py:48-60 | the listing loop computes the grouping specification |
| LambdaVisualize.AddObjectOrdered | lambda/visualization/lambda_visualize.py:58-60 | adding a record keeps the key order duplicate-free and limited to the five tools |
| LambdaVisualize.GroupOrder | lambda/visualization/lambda_visualize.py:48-60 | the script keys appear once each, all among the five tools |
| LambdaVisualize.GroupLists | lambda/visualization/lambda_visualize.py:51-60 | each script's list is its selected records in listing order (`.json`, node queried, known script) |
| LambdaVisualize.GroupNonEmpty | lambda/visualization/lambda_visualize.py:58-60 | no script has an empty list |
| LambdaVisualize.GroupMembers | lambda/visualization/lambda_visualize.py:46-60 | a script has a list iff some selected object names it; that list is its selected records in order |
| LambdaVisualize.CombineAllSpec | lambda/visualization/lambda_visualize.py:62-66 | a successful result has exactly the group keys |
| LambdaVisualize.CombineAllErrSticky | lambda/visualization/lambda_visualize.py:63-66 | an exception ends the loop and later scripts do not matter |
| LambdaVisualize.CombineAllStep | lambda/visualization/lambda_visualize.py:63-66 | each script adds its combined result under its own name, or raises |
| LambdaVisualize.CombineAll | lambda/visualization/lambda_visualize.py:62-66 | the loop computes the combining specification |
| LambdaVisualize.CombinedPerScript | lambda/visualization/lambda_visualize.py:62-66 | one combined result per script with at least one selected record; "Invalid script name" never arises |
| LambdaVisualize.CombineAllKnown | lambda/visualization/lambda_visualize.py:62-66 | known script names never reach the dispatch's "Invalid script name" |
| LambdaVisualize.DashboardFile | lambda/visualization/lambda_visualize.py:35 | the dashboard file name ends in `.html` |
| LambdaVisualize.DestPathAsWrittenMisnames | lambda/visualization/lambda_visualize.py:70 | as written, a last listed key `dir/name.json` stores the dashboard as `name`, without `.html`, and an empty listing leaves no name |
| LambdaVisualize.JsonFileName | lambda/visualization/lambda_visualize.py:52-53 | `dir/name.json` passes the `.json` test and has file name `name` |
| LambdaVisualize.SuffixFileName | lambda/visualization/lambda_visualize.py:53 | the slice strips the directory and a five-character suffix |
| LambdaVisualize.NoDotNoHtml | lambda/visualization/lambda_visualize.py:70 | a name without `.` does not end in `.html` |
| LambdaVisualize.DestPath | lambda/visualization/lambda_visualize.py:70 | the intended dashboard key ends in `.html` |
| LambdaVisualize.DestPathNamesDashboard | lambda/visualization/lambda_visualize.py:70 | the intended key's file name is `date_visualization_on_epoch_epoch` |
| LambdaVisualize.LambdaHandler | lambda/visualization/lambda_visualize.py:40-79 | the handler lists, groups and combines, and stores the combined results under the corrected dashboard key |
| LambdaVisualize.Listing | lambda/visualization/lambda_visualize.py:43-45 | the listed objects all start with `my_transformed_key/date/` and are no more than the objects |
| LambdaVisualize.ListObjects | lambda/visualization/lambda_visualize.py:43-45 | the prefix filter computes the listing |
| ExecuteEbpf.Names | execute_ebpf.py:152-160 | the catalog names in order |
| ExecuteEbpf.CatalogMatchesDecoders | execute_ebpf.py:152-160 | the catalog is execsnoop, syscount, runqlat, biosnoop, biolatency in that order, the decoders' five tools; only syscount profiles by pid; no fixed argument is `-p` |
| ExecuteEbpf.CatalogEntry | execute_ebpf.py:152-160 | each entry profiles by pid iff it is syscount, and has no `-p` of its own |
| ExecuteEbpf.Pad2 | execute_ebpf.py:110 | `%m` and `%d` write two digits |
| ExecuteEbpf.DateString | execute_ebpf.py:110 | the date string holds only digits and `-` |
| ExecuteEbpf.Pad2Digits | execute_ebpf.py:110 | two padded digits read back as the number |
| ExecuteEbpf.DatePieces | execute_ebpf.py:110 | the date string splits on `-` into month, day and year |
| ExecuteEbpf.DateRoundTrip | execute_ebpf.py:110 | the date string determines the date |
| ExecuteEbpf.GenerateFilepath | execute_ebpf.py:107-111 | the raw path ends in `.txt` |
| ExecuteEbpf.RawPath | execute_ebpf.py:111 | the raw path under any prefix ends in `.txt` |
| ExecuteEbpf.RawPathRoundTrip | execute_ebpf.py:107-111 | under a prefix `dir/`, the transformation reads the date string, node and tool back from the raw path |
| ExecuteEbpf.RawPathAsConfigured | execute_ebpf.py:107-111 | with `KEY = "raw_key"` as configured, the raw path has only two segments, so the transformation raises IndexError |
| ExecuteEbpf.BaseCommand | execute_ebpf.py:125-128 | the command is `python`, the tool path, then exactly the default arguments |
| ExecuteEbpf.ToolCommandPid | execute_ebpf.py:125-137 | the base command prefixes the command; `-p` and the pid are appended iff a workload pid exists and the tool profiles by pid, and `-p` is then added exactly once; the pid text reads back as the pid |
| ExecuteEbpf.Classify | execute_ebpf.py:88-104 | a live thread returns the output unless there is no process (AttributeError) or signalling fails; a finished one raises TypeError when its process has no return code (`None > 0`), CalledProcessError when the code is positive, and otherwise returns the output |
| ExecuteEbpf.ThreadedExecution.constructor | execute_ebpf.py:52-56 | a new execution holds the command, no process and an empty buffer |
| ExecuteEbpf.ThreadedExecution.Run | execute_ebpf.py:58-104 | `run` records the process and the text it read, then classifies the result |
| ExecuteEbpf.RunOnceCases | execute_ebpf.py:88-104 | a tool that never started ends with empty output; a finished tool's output is returned iff it has a return code that is not positive, and TypeError is raised when it has none; a timed-out one returns its output when signalling works |
| ExecuteEbpf.RunTool | execute_ebpf.py:122-149 | one iteration of the tool loop computes the iteration specification |
| ExecuteEbpf.ExecutionSpec | execute_ebpf.py:121-149 | one outcome per catalog tool |
| ExecuteEbpf.EbpfExecution | execute_ebpf.py:114-149 | every tool's iteration runs in catalog order, whatever earlier iterations raised |
| ExecuteEbpf.Uploads | execute_ebpf.py:147 | there are no more uploads than iterations |
| ExecuteEbpf.IterationOutcome | execute_ebpf.py:130-149 | a workload starts iff there is one and it spawned; the iteration uploads the tool's output under its raw path iff nothing raised; the command carries the pid iff a workload started |
| ExecuteEbpf.IterationPidFlag | execute_ebpf.py:132-137 | `-p` appears once in a command iff that iteration started a workload and the tool is syscount, else never |
| ExecuteEbpf.IdleRunsAlone | execute_ebpf.py:118-119 | with no workload (`None` or IDLE) no iteration starts one and no command has `-p` |
| ExecuteEbpf.UploadsCount | execute_ebpf.py:131-149 | one upload per iteration that raised nothing |
| ExecuteEbpf.UploadsInOrder | execute_ebpf.py:131-149 | the uploads are exactly the results of the iterations that raised nothing, in catalog order: iteration k's upload is at the position equal to the number of uploads before k |
| ExecuteEbpf.ResolveWorkload | execute_ebpf.py:187-190 | KeyError iff the workload name is unknown; otherwise its catalog command |
| ExecuteEbpf.Profile | execute_ebpf.py:187-193 | an unknown workload raises KeyError before any tool runs; otherwise the catalog is profiled beside that workload |
| ExecuteEbpf.WorkloadPerIteration | execute_ebpf.py:132-134 | DISKIO and MATRIX start a fresh workload in every iteration whose spawn succeeds, not once per batch |

## Left out

- Threads, `subprocess.Popen`, `os.kill`, SIGINT, `terminate`, `sleep`, `thread.join` timeouts and `psutil.pid_exists`. These are concurrency and process control. What they did in one tool's iteration is an input, `ToolEnv` with its `Observation`: spawned, still alive, return code, text written, whether a signal or kill raised. The model decides what follows from that.
- A read of the output buffer racing with the tool's thread, and the `StringIO` position. The buffer holds what the thread wrote, and `read()` returns all of it.
- S3 (`get_object`, `put_object`, `objects.filter`), the Lambda events, `json.loads`/`json.dumps` and UTF-8 decoding. These are I/O. A tool output that is not UTF-8 makes the thread's target raise before `communicate()`; the model keeps its consequence, a process whose return code is None, so `run` raises TypeError at line 100. The listing with its decoded records, and a raw object's lines, body and decoded literal, are inputs; the uploads are results.
- `datetime.now()` and `strftime("%s")`. They are clocks: the date and the epoch text are parameters.
- `argparse`, `logging` and `print`. These are I/O. The `print(ex)` of a caught exception is the `Err` in that iteration's outcome.
- Floating point. `float()` is the parameter `toFloat`, which answers None where Python raises. Sums and quotients are exact `real` arithmetic, with no rounding.
- `int()` is modelled for ASCII digits with an optional sign only. Other strings Python accepts (spaces, underscores, other Unicode digits) are treated as ValueError.
- Transform.SyscountKeptRows: the syscount pattern's `\d` matches ASCII digits only (`IsDecimal`). Python's `\d` on `str` also matches other Unicode decimal digits, such as `"١.٥"`, and `float()` accepts them. So a line whose latency is written in such digits is discarded by the model but kept by the source.
- `ast.literal_eval`. It is a foreign parser: biolatency starts from the decoded entries, or None when decoding raises.
- pandas and numpy internals: column alignment, NaN filling and dtype casts.
  - A frame whose columns differ in length is a ValueError.
  - A record of another tool's shape is a KeyError.
  - `np.pad` with a negative width is a ValueError.
- `lambda/visualization/visualize.py` is not part of this model. It builds the Plotly figure and writes the HTML file, which the handler then reads back and uploads.
- Placeholder constants. `KEY = "raw_key"` has no `/`, and the transformation writes under `transformed_key` while the visualizer lists `my_transformed_key/<date>/`. The model keeps the constants as written (`RawPathAsConfigured` shows the first mismatch) and states the round trips for any well-formed prefix.
- Listing order. `objects.filter` returns keys in S3's order; the model takes the listing as an ordered input.
- LambdaVisualize.LambdaHandler: stores the dashboard under the corrected key `DestPath` from the Findings row, not under line 70's leftover `file_name`. So it never raises line 70's NameError on a listing without a `.json` key, and never stores the dashboard under a record's stem. `DestPathAsWrittenMisnames` states what line 70 does as written.
- ExecuteEbpf.DateString: `%Y` is written as glibc writes it, unpadded, so the year is any positive number; "zero-padded mm-dd-yyyy" holds for years 1000-9999.

Three behaviours of the code worth noting:

- A tool whose `Popen` fails inside its thread leaves no process. Its thread ends, and `run` returns the empty output without error. That output is then uploaded; the spawn failure is not reported.
- Only a positive return code raises. A negative return code (killed by a signal) returns the output normally; it is not treated as a failure.
- A workload whose `Popen` fails raises inside the iteration: SpawnError, and no upload.

## Findings

| source | as written | input that shows it | evidently intended | confidence | as-written member | corrected member |
|---|---|---|---|---|---|---|
| lambda/visualization/lambda_visualize.py:70 | The dashboard key is `f"{VISUALIZATION_KEY}/{file_name}"`. `file_name` is the loop variable left over from the listing loop: the file name of the last listed `.json` key. | A listing whose last key is `my_transformed_key/12-07-2022/node1_syscount.json` stores the dashboard as `my_visualization_key/node1_syscount`, with no `.html`, overwriting it per listing. A listing with no `.json` key raises NameError. | `my_visualization_key/<date>_visualization_on_epoch_<epoch>.html`, the file the handler just wrote | medium, not executed | LambdaVisualize.DestPathAsWrittenMisnames | LambdaVisualize.DestPathNamesDashboard |
