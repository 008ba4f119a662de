# Twitter trace preprocessing tools, modelled in Dafny

This project models the small single-pass tools that prepare Twitter
memcached access traces for cache experiments, and proves what each tool
promises:

- **merge_traces** (`MergeTraces`, record format in `TraceRecord`): filters the
  rows of several trace files by operation. It keeps one random row per window
  of `n` surviving rows of each file, pools those representatives in a
  min-timestamp priority queue (the `MinHeap` class), and drains the queue into
  the merged output.
- **preprocess_trace** (`PreprocessTrace`): tokenises lines on commas and
  rebuilds keys that contained commas. It decodes the seven columns with the C++
  string-to-integer conversions, keeps get/gets/delete rows (but no empty gets)
  and writes them back.
- **sampling** (`Sampling`): copies the header line, then writes one random line
  per window of `n` data lines.
- **split_trace** (`SplitTrace`): copies a five-column key trace into numbered
  files of `L` rows each, with a header line per file.
- **trace_info** (`TraceInfo`): accumulates totals, a line count and per-key
  (sum, count) pairs in three accumulators (all, at most 2 KB, over 2 KB). The
  accumulator is the `StatsAccumulator` class. It computes the two integer
  footprints from these.
- **obj_size_bin** (`ObjSizeBin`): builds a power-of-two object-size histogram
  from `ceil_log2` with a clamped bin index.
- **hash_keys** (`HashKeys`): collects the unique keys of a trace. For each
  truncation length 16, 17 and 18 it reports keys whose truncated MD5 digests
  collide.
- **FIFO_counter_checker.py** (`FifoCounterChecker`): counts "ops completed"
  progress lines between "FIFO rotation" lines of a log. Also models the guards
  that select which tasks' logs are read.
- **info_to_excel.py** (`InfoToExcel`): section-tracking parser that reads back
  the report `trace_info` prints.

Shared pieces live in `Common` and `Windowing`:

- `Common`: the `Option`/`Result` types; `std::getline` tokenising; the
  `std::stoull`/`std::stoi` conversions; decimal printing; Python's `strip` over the whitespace of `str.isspace`,
  kept apart from C's `isspace` that the conversions skip.
- `Windowing`: cutting a sequence into consecutive windows of `n`, and "one
  element per window" sampling.

The `std::random_device` draws become a nondeterministic choice of an index into
the current buffer. MD5 is a function parameter. Files, streams and the command
line become sequences of lines, decoded rows and argument lists.

## Model

| member | source | states |
|---|---|---|
| MergeTraces.AcceptsIff | merge_traces.cpp:38-64 | a row passes the filter iff its operation is get, gets or delete, or set-ops are included and it is one of set, cas, add, replace, incr, decr, prepend, append |
| MergeTraces.OpType | merge_traces.cpp:97-106 | an operation class exists exactly for accepted operations; GET exactly for get/gets, DELETE exactly for delete |
| MergeTraces.Least | merge_traces.cpp:22-24 | the chosen queue position holds an entry no other entry precedes under the inverted `operator<`, i.e. a smallest timestamp |
| MergeTraces.MinHeap.constructor | merge_traces.cpp:32 | a new queue is empty |
| MergeTraces.MinHeap.Size | merge_traces.cpp:93 | the size is zero exactly when no entry is queued |
| MergeTraces.MinHeap.Push | merge_traces.cpp:71 | pushing adds exactly the given entry to the queue |
| MergeTraces.MinHeap.FindTop | merge_traces.cpp:94 | the linear search returns the position of the least entry |
| MergeTraces.MinHeap.Top | merge_traces.cpp:94 | `top()` returns a queued entry whose timestamp is at most that of every queued entry |
| MergeTraces.MinHeap.Pop | merge_traces.cpp:95 | `pop()` removes exactly one copy of the top entry and keeps every other entry |
| MergeTraces.PushRepresentatives | merge_traces.cpp:51-80 | the per-file loop pushes exactly one element of each window of `n` filtered rows, trailing partial window included, in window order, and nothing else |
| MergeTraces.AddToGroup | merge_traces.cpp:66-73 | an accepted row joins the group; a group reaching `n` pushes one of its own rows and is cleared, so the group never holds `n` rows between rows |
| MergeTraces.FilteredRows | merge_traces.cpp:61-66 | the rows that reach the group are, in file order, a subsequence of the file; every one of them passes the filter, and every row of the file that passes the filter is among them |
| MergeTraces.FilteredAllAccepted | merge_traces.cpp:61-66 | a file whose rows all pass the filter reaches the group unchanged |
| MergeTraces.FilteredNoneAccepted | merge_traces.cpp:61-66 | a file none of whose rows passes the filter contributes no row |
| MergeTraces.RepresentativeCount | merge_traces.cpp:66-80 | a file with k filtered rows contributes ceil(k / n) queue entries |
| MergeTraces.SetOnlyFile | merge_traces.cpp:61-80 | a file of k `set` rows contributes nothing under the default policy and ceil(k / n) entries when set operations are included |
| MergeTraces.RepresentativesAreFilteredRows | merge_traces.cpp:70-79 | every representative is a row of its file that passed the filter, and representatives keep file order |
| MergeTraces.SubsequenceKeepsOrder | merge_traces.cpp:66-80 | representatives of a timestamp-sorted file are themselves in timestamp order |
| MergeTraces.PoolSizeOf | merge_traces.cpp:42-83 | the pool holds the sum over files of ceil(k_f / n) entries |
| MergeTraces.PoolAccepted | merge_traces.cpp:42-83 | every pooled entry passed the filter |
| MergeTraces.MergeAndTransform | merge_traces.cpp:27-135 | the merged output is a permutation of a legal pool of representatives, in non-decreasing timestamp order, one formatted line per entry, with as many lines as the pool has entries |
| MergeTraces.Drain | merge_traces.cpp:93-112 | draining empties the queue and writes every queued entry exactly once, in non-decreasing timestamp order, each as its formatted line |
| MergeTraces.DrainStep | merge_traces.cpp:94-106 | a popped minimum passed the filter (the skip branch never fires), and appending it keeps the output sorted and the written-plus-queued multiset equal to the original queue |
| MergeTraces.MergeWithoutSamplingConserves | merge_traces.cpp:42-83 | with `n == 1` the pool is exactly every filtered row of every file, in file order |
| MergeTraces.ParseMergeArgs | merge_traces.cpp:139-162 | fewer than three arguments are rejected; success iff the group size converts with `std::stoi` and is positive; then output file, `n`, the `--include-set-ops` flag and the input files are read in that order |
| Common.FormatAll | merge_traces.cpp:109-112 | one output line per row, in order, the i-th line being the i-th row's formatted line (for trace records the seven columns joined by commas) |
| TraceRecord.FormatRowColumns | merge_traces.cpp:109-112 | a written line splits on commas back into exactly its seven columns when key and operation hold no comma |
| TraceRecord.SplitFormatRow | preprocess_trace.cpp:33-35 | a written line splits into the timestamp, the comma pieces of the key, then the last five columns |
| TraceRecord.GetlineSplitFormatRow | preprocess_trace.cpp:33-35 | the `getline` tokens of a written line are the same pieces |
| PreprocessTrace.Tokenize | preprocess_trace.cpp:28-35 | the tokens are what repeated `std::getline(ss, token, ',')` yields |
| PreprocessTrace.FixKey | preprocess_trace.cpp:18-24 | the rebuilt key is the in-order concatenation of tokens startIdx..endIdx, empty when the range is empty |
| PreprocessTrace.ParseLine | preprocess_trace.cpp:27-58 | `parseLine` succeeds and yields a row exactly as the line decoding specifies |
| PreprocessTrace.TooFewFieldsRejected | preprocess_trace.cpp:38-40 | a line with fewer than seven tokens is rejected |
| PreprocessTrace.DecodedColumns | preprocess_trace.cpp:43-55 | a decoded row takes the timestamp from token 0, the key from tokens 1..m-6 concatenated, key and value size truncated to 32 bits, then client id, operation and TTL from the last tokens; every numeric token converted |
| PreprocessTrace.SevenTokensKey | preprocess_trace.cpp:43-51 | a line of exactly seven tokens keeps its second token as the key, unchanged |
| PreprocessTrace.DecodeColumnsOk | preprocess_trace.cpp:45-55 | when all five numeric tokens convert, decoding succeeds with those values, sizes taken modulo 2^32 |
| PreprocessTrace.DecodedFieldsClean | preprocess_trace.cpp:43-52 | a row decoded from comma-free tokens has a key and an operation free of commas |
| PreprocessTrace.DecodedRowIsClean | preprocess_trace.cpp:33-52 | every decoded row fits the columns and holds no comma in key or operation |
| PreprocessTrace.DecodeFormatRow | preprocess_trace.cpp:43-52 | reading a written row gives back that row with the commas removed from its key |
| PreprocessTrace.DecodeFormatRowClean | preprocess_trace.cpp:27-58 | reading a written comma-free row gives back exactly that row |
| PreprocessTrace.KeepIff | preprocess_trace.cpp:78-84 | a row survives iff it is a delete, or a get/gets with non-zero value size |
| PreprocessTrace.Survivor | preprocess_trace.cpp:72-84 | a line contributes at most one row |
| PreprocessTrace.ProcessCSV | preprocess_trace.cpp:70-90 | the output is the formatted survivors of the input lines, in input order |
| PreprocessTrace.PreprocessedAppend | preprocess_trace.cpp:71-90 | the filter works line by line: preprocessing concatenated inputs concatenates the outputs |
| PreprocessTrace.PreprocessedFrom | preprocess_trace.cpp:71-90 | every output row passes the filter and decodes from some input line |
| PreprocessTrace.PreprocessedKeeps | preprocess_trace.cpp:71-90 | every input line that decodes to a row passing the filter yields an output row; unparseable lines only drop themselves |
| PreprocessTrace.PreprocessIdempotent | preprocess_trace.cpp:71-90 | preprocessing the tool's own output gives back the same rows |
| PreprocessTrace.ParsePreprocessArgs | preprocess_trace.cpp:97-103 | exactly two arguments are accepted, as input and output file |
| Sampling.SampleTraceFile | sampling.cpp:6-46 | the output is the header followed by one line from each window of `n` data lines, trailing window included, in window order; empty input gives empty output |
| Sampling.SampledCount | sampling.cpp:27-40 | for k data lines the output holds the header and ceil(k / n) lines |
| Sampling.SampledInOrder | sampling.cpp:27-40 | the written data lines are a subsequence of the input data lines |
| Sampling.SampledFromWindow | sampling.cpp:28-39 | written line i comes from data lines i*n+1 .. i*n+n of the input |
| Sampling.SampleOfOneCopies | sampling.cpp:27-40 | with `n == 1` the output is the input |
| Sampling.ParseSampleArgs | sampling.cpp:48-60 | exactly three arguments, and success iff `n` converts with `std::stoi` and is positive |
| SplitTrace.SplitRows | split_trace.cpp:53-82 | the loop leaves exactly the split files and counts every row |
| SplitTrace.StartStep | split_trace.cpp:61-78 | a row whose index is a multiple of L starts file number index / L holding the header and that row |
| SplitTrace.ContinueStep | split_trace.cpp:77-78 | any other row is appended to the last file opened |
| SplitTrace.SplitCount | split_trace.cpp:59-80 | k rows make ceil(k / L) files |
| SplitTrace.SplitFileShape | split_trace.cpp:70-78 | file j is named `./<prefix>_<j>.csv` and starts with the header; all files but the last hold L rows, the last 1 to L |
| SplitTrace.RowPlacement | split_trace.cpp:61-79 | row i is data line i mod L of file i / L |
| SplitTrace.FormatRowRoundTrip | split_trace.cpp:77-78 | a written row splits back into its five header-order fields, and the numeric ones read back as the row's values |
| HashKeys.ExtractKey | hash_keys.cpp:30-36 | the key is the text before the first comma, or the whole line |
| HashKeys.KeysOfMembers | hash_keys.cpp:27-37 | a key is collected iff some non-empty line yields it |
| HashKeys.CollectKeys | hash_keys.cpp:24-37 | the read loop leaves exactly the set of keys of the non-empty lines |
| HashKeys.SortedOfEnumerates | hash_keys.cpp:44 | iteration visits every unique key exactly once, in strictly increasing lexicographic order |
| HashKeys.Truncate | hash_keys.cpp:50 | `substr(0, cutLen)` is the prefix of length min(cutLen, length) |
| HashKeys.ScanSnoc | hash_keys.cpp:52-61 | a key whose truncated digest is stored is reported against the stored key and leaves the map unchanged; otherwise the map gains that digest for that key |
| HashKeys.ScanDomain | hash_keys.cpp:52-61 | the map holds exactly the truncated digests of the keys visited |
| HashKeys.ScanKeepsFirst | hash_keys.cpp:52-61 | each digest maps to the first key that produced it; later keys never overwrite it |
| HashKeys.ScanCount | hash_keys.cpp:52-61 | the number of collision reports is keys visited minus map size |
| HashKeys.ScanReportsIff | hash_keys.cpp:44-62 | a report is made iff two visited keys share a truncated digest |
| HashKeys.CollisionIffShared | hash_keys.cpp:44-62 | a collision is found iff two distinct unique keys share their first cutLen digest characters |
| HashKeys.TruncateShorter | hash_keys.cpp:40-50 | keys that collide at a cut length also collide at every shorter one |
| HashKeys.DetectCollisions | hash_keys.cpp:41-62 | one cut length's loop, started with a fresh map and flag, ends in the specified scan state, and the flag is set iff a report was made |
| HashKeys.HashKeysMain | hash_keys.cpp:24-67 | for each of 16, 17, 18 in order, the reports are those of the scan over the sorted unique keys, and `collisionFound` (whose absence prints "No hash collision") is set iff there are reports |
| TraceInfo.TruncDivOdd | trace_info.cpp:77 | C++ integer division truncates toward zero: dividing a negation negates the quotient |
| TraceInfo.TruncDivBounds | trace_info.cpp:77 | for non-negative sums the per-key average lies between 0 and the sum |
| TraceInfo.SumOverRemove | trace_info.cpp:73-79 | the sum over keys splits into one key's term plus the sum over the others |
| TraceInfo.SumOverUpdate | trace_info.cpp:48-50 | changing one key's aggregate changes the sum over keys by exactly the change in that key's term |
| TraceInfo.StatsAccumulator.constructor | trace_info.cpp:15-23 | a new accumulator has zero totals, no lines and an empty key map |
| TraceInfo.StatsAccumulator.UpdateStats | trace_info.cpp:36-51 | the three totals grow by the record's sizes, the line count by one, and only that key's (sum, count) changes, by (objectSize, 1); the sum of counts stays the line count and the sum of per-key sums stays the object total |
| TraceInfo.StatsAccumulator.ComputeStats | trace_info.cpp:56-83 | no lines give zero stats; otherwise footprint1 is the object total and footprint2 the sum over keys of the truncated per-key average |
| TraceInfo.AggregateSums | trace_info.cpp:36-51 | over any record sequence the per-key counts sum to the number of records and the per-key sums to the object total; every key seen has a positive count |
| TraceInfo.RoutingConserves | trace_info.cpp:190-197 | every record goes to exactly one size class, so counts and the three totals of "All" equal under plus over |
| TraceInfo.RoutingClasses | trace_info.cpp:193-197 | the under class holds exactly records of at most 2048 bytes, the over class the larger ones |
| TraceInfo.Footprint1Conserved | trace_info.cpp:204-206 | footprint1 of "All" is footprint1 of under plus over |
| TraceInfo.Footprint2AtMostFootprint1 | trace_info.cpp:70-80 | for non-negative sizes, 0 <= footprint2 <= footprint1 |
| TraceInfo.DataLine | trace_info.cpp:172-187 | a data line is skipped iff fewer than five fields can be read; it ends the run iff the size or key-size field fails `std::stoi`; otherwise the record takes the key from field 0, the object and key sizes from fields 2 and 4, and value size = object size - key size |
| TraceInfo.DataLineReadsBack | trace_info.cpp:172-187 | a line `key,op,size,op_count,key_size` with comma-free key and op and sizes in `int` range reads back as that key and those sizes, with value size = size - key size |
| TraceInfo.FirstLine | trace_info.cpp:130-162 | the first line is skipped iff it starts with the header or has fewer than five fields; otherwise it ends the run iff the size, op-count or key-size field fails `std::stoi`, and else yields the record as a data line does |
| TraceInfo.FirstLineLikeData | trace_info.cpp:135-148 | a non-header first line is read like a data line, except that a bad op-count field also ends the run |
| TraceInfo.Route | trace_info.cpp:190-197 | "All" takes every record; "Under 2KB" takes it iff its object size is at most 2048, "Over 2KB" otherwise |
| TraceInfo.RouteStates | trace_info.cpp:189-197 | one routed record advances each class's state exactly as the class of that record says |
| TraceInfo.DataRecordsAborted | trace_info.cpp:185-186 | once a conversion has thrown, no later line can resume the run |
| TraceInfo.Feed | trace_info.cpp:152-157 | a taken record extends the record sequence the accumulators track; a skipped line leaves it |
| TraceInfo.FeedLine | trace_info.cpp:168-197 | one loop iteration succeeds iff the lines so far still decode, and then the accumulators track the extended record sequence |
| TraceInfo.FeedLines | trace_info.cpp:167-198 | the read loop completes iff no conversion throws, and then the accumulators track exactly the records of the data lines |
| TraceInfo.Finish | trace_info.cpp:204-213 | the report holds the under, over and all statistics in print order |
| TraceInfo.TraceInfoMain | trace_info.cpp:125-213 | the tool aborts exactly when a conversion throws; otherwise it reports the statistics of the under, over and all records of the trace |
| ObjSizeBin.Sub32 | obj_size_bin.cpp:64 | unsigned 32-bit subtraction is the difference modulo 2^32 |
| ObjSizeBin.LeadingZeros | obj_size_bin.cpp:46 | `__builtin_clz` of a w-bit value counts the zero bits above its highest set bit |
| ObjSizeBin.CountBins | obj_size_bin.cpp:36-43 | the doubling loop ends with 14 bins, the first count for which 64 * 2^bins passes 512 KiB |
| ObjSizeBin.CeilLog2 | obj_size_bin.cpp:45-48 | for 0 < v < 2^32, 2^(k-1) < v <= 2^k with k <= 32 |
| ObjSizeBin.CeilLog2Least | obj_size_bin.cpp:45-48 | ceil_log2(v) is the least k with v <= 2^k |
| ObjSizeBin.CeilLog2Exact | obj_size_bin.cpp:45-48 | ceil_log2(v) == k iff 2^(k-1) < v <= 2^k |
| ObjSizeBin.CeilLog2Samples | obj_size_bin.cpp:50-51 | ceil_log2(64) == 6 and ceil_log2(62) == 6, the two asserted values |
| ObjSizeBin.CeilLog2OfPow2 | obj_size_bin.cpp:45-48 | ceil_log2 of an exact power of two is its exponent |
| ObjSizeBin.BinIndexOfLog | obj_size_bin.cpp:64-65 | the slot is i < numBins iff ceil_log2(size) is i + 6 |
| ObjSizeBin.BinIndexSlot | obj_size_bin.cpp:64-65 | slot i < numBins counts exactly the sizes in (2^(i+5), 2^(i+6)] |
| ObjSizeBin.BinIndexSmall | obj_size_bin.cpp:64-65 | sizes up to 32 wrap in the unsigned subtraction and are clamped into slot numBins |
| ObjSizeBin.BinIndexLarge | obj_size_bin.cpp:64-65 | sizes above 2^(numBins+5) are clamped into slot numBins |
| ObjSizeBin.BinsOf | obj_size_bin.cpp:64 | every row gets the slot its size selects |
| ObjSizeBin.HistogramSnoc | obj_size_bin.cpp:65 | a row increments exactly its own slot by one and no other |
| ObjSizeBin.HistogramCounts | obj_size_bin.cpp:53-66 | slot i holds the number of rows whose size selects slot i |
| ObjSizeBin.HistogramTotal | obj_size_bin.cpp:53-66 | the slots add up to the number of rows read |
| ObjSizeBin.CountFile | obj_size_bin.cpp:63-66 | one file's row loop adds that file's rows to the histogram in place |
| ObjSizeBin.BuildHistogram | obj_size_bin.cpp:53-67 | a fresh zeroed array of numBins + 1 slots ends as the histogram of the rows of all files |
| FifoCounterChecker.SearchOpsFrom | FIFO_counter_checker.py:8 | the scanner finds a match of `[0-9]*\.[0-9]*M ops completed` iff one starts at some position |
| FifoCounterChecker.OpsLineMeaning | FIFO_counter_checker.py:8 | a line is an ops line iff it contains a dot, then digits, then "M ops completed" |
| FifoCounterChecker.ProgressLineRecognised | FIFO_counter_checker.py:8 | every progress line of that form is recognised |
| FifoCounterChecker.OpsLineNeedsDot | FIFO_counter_checker.py:8 | a line without a dot is never an ops line |
| FifoCounterChecker.SearchRotationFrom | FIFO_counter_checker.py:9 | the scanner finds a match of the rotation pattern iff one starts at some position |
| FifoCounterChecker.RotationLineMeaning | FIFO_counter_checker.py:9 | a line is a rotation line iff it contains "FIFO rotation count becomes from", digits, " to " and a digit |
| FifoCounterChecker.RotationLineRecognised | FIFO_counter_checker.py:9 | every rotation message with two numbers is recognised |
| FifoCounterChecker.Kinds | FIFO_counter_checker.py:18-24 | each line is classified on its own, in order |
| FifoCounterChecker.CountLine | FIFO_counter_checker.py:19-26 | one loop iteration is one transition of the counter state machine |
| FifoCounterChecker.ParseLogForCounts | FIFO_counter_checker.py:11-29 | a missing log gives the empty list; otherwise the result is the counts the state machine produces over the log's lines |
| FifoCounterChecker.TallyTotals | FIFO_counter_checker.py:17-29 | there is one count per rotation line, and the counts plus the running count add up to the ops lines |
| FifoCounterChecker.TallyQuiet | FIFO_counter_checker.py:21-22 | lines without a rotation only increase the running count, by their ops lines |
| FifoCounterChecker.TallySegment | FIFO_counter_checker.py:21-26 | a rotation line appends the ops lines since the last rotation, its own included, and resets the count |
| FifoCounterChecker.ReportedOps | FIFO_counter_checker.py:17-29 | the reported counts add up to the ops lines up to and including the last rotation line; later ops lines are never reported |
| FifoCounterChecker.Get | FIFO_counter_checker.py:47-59 | `dict.get` returns the stored value, or the default when the key is absent |
| FifoCounterChecker.Lower | FIFO_counter_checker.py:62 | `lower()` maps each ASCII capital to its small letter and keeps every other character |
| FifoCounterChecker.SelectTask | FIFO_counter_checker.py:46-63 | a task is processed iff its status is a dict, "Done" is a non-empty dict whose result is "Success", and its label is a non-empty string containing "lsm" in any case |
| FifoCounterChecker.SelectIgnoresCase | FIFO_counter_checker.py:59-63 | labels differing only in letter case are skipped, or crash, alike |
| InfoToExcel.SpaceRun | info_to_excel.py:21-27 | `\s*` takes the longest run of characters Python counts as whitespace (`str.isspace`: C's six, U+001C-U+001F and the Unicode spaces and separators) |
| InfoToExcel.ValueRun | info_to_excel.py:21-27 | `([\d\.]+)` and `([\d]+)` take the longest run of value characters |
| InfoToExcel.SearchFrom | info_to_excel.py:49 | `re.search` returns the capture at a matching position before which no position matches (the leftmost match), and none iff no position matches |
| InfoToExcel.CaptureCharset | info_to_excel.py:21-27 | a captured value is non-empty and made of digits (and dots for the averages) |
| InfoToExcel.PrintedFieldReadsBack | info_to_excel.py:21-27 | a field name, padding, ": " and a value matches the field's pattern and captures exactly the value |
| InfoToExcel.HeaderSection | info_to_excel.py:35-43 | a header line names one of the three sections |
| InfoToExcel.Step | info_to_excel.py:34-51 | processing a line keeps exactly the three sections |
| InfoToExcel.ParseAll | info_to_excel.py:12-51 | the parse state after any lines holds exactly the three sections |
| InfoToExcel.ParseFromAppend | info_to_excel.py:33-51 | parsing concatenated lines is parsing the second part from the state the first part leaves |
| InfoToExcel.ScanLine | info_to_excel.py:48-51 | the pattern loop stores each matching field's capture, in pattern order |
| InfoToExcel.ParseLine | info_to_excel.py:34-51 | one loop iteration is one step of the line parser |
| InfoToExcel.ParseAnalysisTxt | info_to_excel.py:7-53 | the result is what the line parser gives for the file's lines, with exactly the keys Under2KB, Over2KB and All |
| InfoToExcel.HeaderSwitches | info_to_excel.py:35-43 | a header line switches the current section and stores nothing |
| InfoToExcel.SeparatedHeader | info_to_excel.py:34-41 | a header line led by U+001C, which `strip()` removes, still switches to its section and stores nothing |
| InfoToExcel.BeforeAnyHeader | info_to_excel.py:45-46 | lines before any header leave the initial, empty result |
| InfoToExcel.OnlyCurrentSection | info_to_excel.py:48-51 | a non-header line changes no section other than the current one |
| InfoToExcel.ScanPatternsStores | info_to_excel.py:48-51 | after the pattern loop a field holds its pattern's capture if it matched, and is otherwise unchanged |
| InfoToExcel.LaterMatchWins | info_to_excel.py:48-51 | a matching line overwrites the field's earlier value in the current section |
| InfoToExcel.Get | info_to_excel.py:82-83 | `get` returns the stored value, or the default when absent |
| InfoToExcel.LastCaptureNone | info_to_excel.py:48-51 | a line on which every pattern for a field misses yields no capture for that field |
| InfoToExcel.StepKeepsAbsent | info_to_excel.py:34-51 | a line that is a header or that the field's pattern does not match leaves the field absent from every section |
| InfoToExcel.NeverCapturedStaysAbsent | info_to_excel.py:33-51 | if no non-header line matches the field's pattern, the field stays absent from every section |
| InfoToExcel.MissingFieldIsZero | info_to_excel.py:82-83 | a field whose pattern matches no non-header line of the report reads as "0" in every section |
| InfoToExcel.PrintedLineReadsBack | trace_info.cpp:90-94 | each value line `printStats` writes is parsed back, under the current section, to exactly the value printed |
| InfoToExcel.FootprintReadsBack | trace_info.cpp:93-94 | the printed footprint numbers read back as their decimal text |
| Common.StoULL | preprocess_trace.cpp:46-52 | `std::stoull` succeeds iff optional space and sign are followed by digits whose value is below 2^64, and then the value is below 2^64 |
| Common.StoI | trace_info.cpp:185-186 | `std::stoi` succeeds iff the digits are present and the signed value lies in the 32-bit range |
| Common.ParseNatToString | split_trace.cpp:77-78 | a number printed in decimal reads back, as an unsigned column, as the same number |
| Common.StoULLOfNatToString | preprocess_trace.cpp:87-89 | `std::stoull` reads back every printed 64-bit value |
| Common.StoIOfNatToString | trace_info.cpp:185-186 | `std::stoi` reads back every printed value below 2^31 |
| Common.SplitAllJoin | merge_traces.cpp:109-112 | splitting a comma-join of comma-free fields gives back the fields |
| Common.GetlineSplitNoDelim | preprocess_trace.cpp:33-35 | no `getline` token contains the delimiter |
| Common.ConcatSplitAll | preprocess_trace.cpp:18-24 | concatenating the comma pieces of a text removes its commas |
| Common.Remove | preprocess_trace.cpp:18-24 | the text with the commas removed contains no comma and every other character as often as the text did; a text without commas is unchanged |
| Common.RemoveAppend | preprocess_trace.cpp:18-24 | removing commas works piece by piece, so the kept characters keep their order |
| Common.Strip | FIFO_counter_checker.py:19 | `strip()` keeps a contiguous part of the text, cuts off only Python whitespace (`str.isspace`, U+001C-U+001F and the Unicode spaces included) at either end, and leaves none at either end |
| Common.TrimLeftCuts | FIFO_counter_checker.py:19 | the leading cut removes a prefix made only of characters of the given whitespace class (Python's `str.isspace` for `strip()`) and keeps the rest |
| Common.TrimRightCuts | FIFO_counter_checker.py:19 | the trailing cut removes a suffix made only of characters of the given whitespace class (Python's `str.isspace` for `strip()`) and keeps the rest |
| Common.StartsWithIff | trace_info.cpp:135 | `rfind(prefix, 0) == 0` holds iff the line is at least as long as the prefix and begins with it |
| Windowing.WindowsShape | sampling.cpp:27-40 | k items make ceil(k / n) windows, all non-empty and at most n long, all but the last exactly n, and together the items in order |
| Windowing.WindowOfIndex | split_trace.cpp:61-72 | item i is item i mod n of window i / n |
| Windowing.WindowsSnoc | sampling.cpp:28-33 | a full buffer, or the trailing one, is the next window |
| Windowing.SampleSnoc | sampling.cpp:29-39 | writing one line of the buffer extends a legal sample by that window |
| Windowing.SampleIsSubsequence | sampling.cpp:27-40 | one element per window, in window order, is a subsequence of the input |
| Windowing.WindowOfOneKeepsAll | sampling.cpp:27-33 | windows of one element leave no choice: the sample is the input |

## Left out

- File and console I/O. Inputs are sequences of lines or decoded rows, outputs are sequences of lines or files; failures to open files, progress prints and throughput timing are not modelled.
- Command-line libraries (argparse in split_trace and obj_size_bin) and `fmt`, `robin_hood` are not part of this model; split_trace receives `--lines` as a 32-bit value, obj_size_bin its file list.
- The CSV reader (`csv.h`) is not part of this model: merge_traces, split_trace and obj_size_bin receive rows already decoded, so quoting, trimming and numeric errors of the reader are not modelled.
- MD5 is a function parameter; hash_key.cpp, which only replaces keys by digest prefixes, is not part of this model.
- Randomness: every random draw is any index into the current buffer; uniformity is not stated.
- Floating point: the three averages of computeStats, printStats' fixed-point formatting, the `std::pow` bin labels of obj_size_bin and the Excel formatting helpers of info_to_excel.py.
- convert_to_excel's workbook layout and process_tasks_from_json's JSON loading and workbook writes; only the task-selection guards and the `get` helper are modelled.
- The refill branch of the merge (merge_traces.cpp:114-130): every reader is drained before the merge starts and popped entries never had `fileIndex` set, so the model drains the pooled representatives only.
- MergeTraces.MinHeap.Top: the order among entries with equal timestamps is unspecified for `std::priority_queue`; the model takes the earliest pushed, and the merge contracts state only non-decreasing timestamps.
- TraceInfo.StatsAccumulator.UpdateStats: the `long long` totals and per-key sums are unbounded integers; 64-bit overflow is not modelled, nor the `int` overflow of `objectSize - keySize`.
- TraceInfo.StatsAccumulator.ComputeStats: only the integer footprints are computed.
- ObjSizeBin.CeilLog2: `ceil_log2(0)` is undefined (`__builtin_clz(0)`), so object sizes are positive 32-bit values; the `uint64_t` slot counters are unbounded.
- SplitTrace.SplitRows: `--lines 0` divides by zero, so it requires L > 0.
- The pattern searches of the Python scripts are concrete scanners: `\d` is the ASCII digits and `lower` maps the ASCII capitals only; Python's also cover non-ASCII digits and letters. `\s` and `strip` use Python's full `str.isspace` class.
- InfoToExcel.PrintedLineReadsBack: the read-back of printStats output is proved line by line, not for a whole printed report. printStats writes no "Unique key count" or "Total key count" line, so those fields read as "0" from trace_info's output.
- FifoCounterChecker.SelectTask: the task map entries are JSON objects; the loop over `tasks_info.items()` itself, and a task entry that is not a dict, are not modelled.
- Loop bodies that the source writes inline are separate methods here (AddToGroup, CountFile, CountLine, FeedLine, ParseLine, ScanLine); they perform the same steps.
