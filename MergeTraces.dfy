/** The multi-file trace merger (merge_traces.cpp).

    For every input file in turn the merger keeps the rows whose operation
    passes the filter, groups the survivors into windows of `n`, and pushes
    one randomly chosen member of each window (the trailing partial window
    included) into a priority queue. Every reader is drained before the
    merge starts, so the queue ends up holding the whole pool of
    representatives; the merge then pops the entry with the smallest
    timestamp until the queue is empty and writes each one as a line. */
module MergeTraces {
  import opened Common
  import opened Windowing
  import opened TraceRecord

  // ---------------------------------------------------------------------------
  // Operation filter
  // ---------------------------------------------------------------------------

  predicate IsDefaultOp(op: string)
  {
    op == "get" || op == "gets" || op == "delete"
  }

  predicate IsExtendedOp(op: string)
  {
    op == "set" || op == "cas" || op == "add" || op == "replace"
    || op == "incr" || op == "decr" || op == "prepend" || op == "append"
  }

  /** The row is kept unless its operation is outside the default set and,
      when set operations are included, outside the extended set too. */
  predicate Accepts(op: string, includeSetOps: bool)
  {
    !(!IsDefaultOp(op) && (!includeSetOps || !IsExtendedOp(op)))
  }

  /** A row is kept iff its operation is get, gets or delete, or set
      operations are included and it is one of them. */
  lemma AcceptsIff(op: string, includeSetOps: bool)
    ensures Accepts(op, includeSetOps) <==>
              op in {"get", "gets", "delete"}
              || (includeSetOps && op in {"set", "cas", "add", "replace", "incr", "decr", "prepend", "append"})
  {
  }

  /** The rows of one file that pass the filter, in file order. */
  function Filtered(rows: seq<Row>, includeSetOps: bool): (kept: seq<Row>)
  {
    if rows == [] then []
    else
      var init := Filtered(rows[..|rows| - 1], includeSetOps);
      var last := rows[|rows| - 1];
      if Accepts(last.operation, includeSetOps) then init + [last] else init
  }

  /** The operation class written for a popped entry; None is the branch in
      which the drain loop skips the entry. */
  function OpType(op: string, includeSetOps: bool): (t: Option<string>)
    ensures t.Some? <==> Accepts(op, includeSetOps)
    ensures t == Some("GET") <==> op == "get" || op == "gets"
    ensures t == Some("DELETE") <==> op == "delete"
  {
    if op == "get" || op == "gets" then Some("GET")
    else if op == "delete" then Some("DELETE")
    else if includeSetOps && IsExtendedOp(op) then Some("SET")
    else None
  }

  // ---------------------------------------------------------------------------
  // Ordering
  // ---------------------------------------------------------------------------

  /** The queue's `operator<` is inverted (`a < b` iff `a.timestamp >
      b.timestamp`), so the queue's "largest" entry is the one with the
      smallest timestamp. */
  predicate QueueLess(a: Row, b: Row)
  {
    a.timestamp > b.timestamp
  }

  predicate SortedByTimestamp(s: seq<Row>)
  {
    forall i, j :: 0 <= i < j < |s| ==> s[i].timestamp <= s[j].timestamp
  }

  /** Index of the entry the queue reports as its top: no entry is greater
      than it under the inverted order, i.e. its timestamp is smallest.
      Among equal timestamps this model takes the earliest pushed. */
  function Least(s: seq<Row>): (k: nat)
    requires s != []
    ensures k < |s|
    ensures forall j :: 0 <= j < |s| ==> !QueueLess(s[k], s[j])
    ensures forall j :: 0 <= j < k ==> s[j].timestamp > s[k].timestamp
  {
    if |s| == 1 then 0
    else
      var k := Least(s[..|s| - 1]);
      if s[|s| - 1].timestamp < s[k].timestamp then |s| - 1 else k
  }

  /** The priority queue `minHeap`: a bag of entries from which `Top`
      returns and `Pop` removes the entry with the smallest timestamp. */
  class MinHeap {
    var entries: seq<Row>

    constructor ()
      ensures entries == []
    {
      entries := [];
    }

    function Size(): (n: nat)
      reads this
      ensures n == 0 <==> entries == []
    {
      |entries|
    }

    method Push(e: Row)
      modifies this
      ensures entries == old(entries) + [e]
    {
      entries := entries + [e];
    }

    /** Scans for the entry with the smallest timestamp. */
    method FindTop() returns (k: nat)
      requires entries != []
      ensures k == Least(entries)
    {
      k := 0;
      var i := 1;
      while i < |entries|
        invariant 1 <= i <= |entries|
        invariant k == Least(entries[..i])
      {
        assert entries[..i + 1][..i] == entries[..i];
        if entries[i].timestamp < entries[k].timestamp {
          k := i;
        }
        i := i + 1;
      }
      assert entries[..i] == entries;
    }

    method Top() returns (t: Row)
      requires entries != []
      ensures t in entries
      ensures forall e :: e in entries ==> t.timestamp <= e.timestamp
      ensures t == entries[Least(entries)]
    {
      var k := FindTop();
      t := entries[k];
    }

    method Pop()
      requires entries != []
      modifies this
      ensures entries == old(entries[..Least(entries)] + entries[Least(entries) + 1..])
      ensures multiset(entries) + multiset{old(entries[Least(entries)])} == multiset(old(entries))
    {
      var k := FindTop();
      assert entries == entries[..k] + [entries[k]] + entries[k + 1..];
      entries := entries[..k] + entries[k + 1..];
    }
  }

  // ---------------------------------------------------------------------------
  // Window sampling of one file
  // ---------------------------------------------------------------------------

  /** `reps` is a legal outcome of sampling one file: one member of each
      window of `n` filtered rows, in window order. */
  ghost predicate IsRepresentatives(reps: seq<Row>, rows: seq<Row>, n: nat, includeSetOps: bool)
    requires n > 0
  {
    IsSampleOf(reps, Windows(Filtered(rows, includeSetOps), n))
  }

  /** The body of the per-file loop: reads every row of one file, keeps the
      accepted ones in `group`, and pushes one random member of each full
      group, then one of the trailing partial group. */
  method PushRepresentatives(heap: MinHeap, rows: seq<Row>, n: nat, includeSetOps: bool)
    returns (ghost reps: seq<Row>)
    requires n > 0
    modifies heap
    ensures heap.entries == old(heap.entries) + reps
    ensures IsRepresentatives(reps, rows, n, includeSetOps)
  {
    var group: seq<Row> := [];
    ghost var done: seq<Row> := [];
    reps := [];
    var lineCount := 0;
    var i := 0;
    while i < |rows|
      invariant 0 <= i <= |rows| && lineCount == i
      invariant done + group == Filtered(rows[..i], includeSetOps)
      invariant Grouping(reps, done, group, n)
      invariant heap.entries == old(heap.entries) + reps
    {
      var entry := rows[i];
      FilteredStep(rows, i, includeSetOps);
      lineCount := lineCount + 1;
      if Accepts(entry.operation, includeSetOps) {
        group, done, reps := AddToGroup(heap, entry, n, group, done, reps, old(heap.entries));
      }
      i := i + 1;
    }
    assert rows[..i] == rows;
    if group != [] {
      var idx :| 0 <= idx < |group|;
      heap.Push(group[idx]);
      SampleSnoc(reps, done, group, group[idx], n);
      reps := reps + [group[idx]];
    } else {
      assert done == Filtered(rows, includeSetOps);
    }
  }

  /** The rows grouped so far: whole windows `done`, one representative
      of each in `reps`, and a partial group `group` shorter than a window. */
  ghost predicate Grouping(reps: seq<Row>, done: seq<Row>, group: seq<Row>, n: nat)
    requires n > 0
  {
    |done| % n == 0 && |group| < n && IsSampleOf(reps, Windows(done, n))
  }

  /** An accepted row joins the group; a group that reaches `n` rows
      pushes one random member and starts again empty. */
  method AddToGroup(heap: MinHeap, entry: Row, n: nat, group: seq<Row>,
                    ghost done: seq<Row>, ghost reps: seq<Row>, ghost base: seq<Row>)
    returns (group': seq<Row>, ghost done': seq<Row>, ghost reps': seq<Row>)
    requires n > 0 && Grouping(reps, done, group, n) && heap.entries == base + reps
    modifies heap
    ensures Grouping(reps', done', group', n) && heap.entries == base + reps'
    ensures done' + group' == done + group + [entry]
  {
    group', done', reps' := group + [entry], done, reps;
    if |group'| == n {
      var idx :| 0 <= idx < |group'|;
      heap.Push(group'[idx]);
      SampleSnoc(reps, done, group', group'[idx], n);
      reps' := reps + [group'[idx]];
      done' := done + group';
      group' := [];
    }
  }

  /** The filter keeps only accepted rows of the file, each in its place:
      what it returns is a subsequence of the file. */
  lemma {:induction false} FilteredRows(rows: seq<Row>, includeSetOps: bool)
    ensures IsSubsequence(Filtered(rows, includeSetOps), rows)
    ensures forall r :: r in Filtered(rows, includeSetOps) ==> r in rows && Accepts(r.operation, includeSetOps)
    ensures forall i :: 0 <= i < |rows| && Accepts(rows[i].operation, includeSetOps)
                        ==> rows[i] in Filtered(rows, includeSetOps)
    decreases |rows|
  {
    if rows != [] {
      var init := rows[..|rows| - 1];
      var last := rows[|rows| - 1];
      FilteredRows(init, includeSetOps);
      SubsequenceExtendRight(Filtered(init, includeSetOps), init, last, Accepts(last.operation, includeSetOps));
      assert init + [last] == rows;
      SubsequenceMembers(Filtered(rows, includeSetOps), rows);
      forall i | 0 <= i < |rows| && Accepts(rows[i].operation, includeSetOps)
        ensures rows[i] in Filtered(rows, includeSetOps)
      {
        if i < |rows| - 1 {
          assert rows[i] == init[i];
        }
      }
    }
  }

  /** A file whose every row is accepted passes the filter unchanged. */
  lemma {:induction false} FilteredAllAccepted(rows: seq<Row>, includeSetOps: bool)
    requires forall i :: 0 <= i < |rows| ==> Accepts(rows[i].operation, includeSetOps)
    ensures Filtered(rows, includeSetOps) == rows
    decreases |rows|
  {
    if rows != [] {
      FilteredAllAccepted(rows[..|rows| - 1], includeSetOps);
      assert rows[..|rows| - 1] + [rows[|rows| - 1]] == rows;
    }
  }

  /** A file none of whose rows is accepted leaves nothing. */
  lemma {:induction false} FilteredNoneAccepted(rows: seq<Row>, includeSetOps: bool)
    requires forall i :: 0 <= i < |rows| ==> !Accepts(rows[i].operation, includeSetOps)
    ensures Filtered(rows, includeSetOps) == []
    decreases |rows|
  {
    if rows != [] {
      FilteredNoneAccepted(rows[..|rows| - 1], includeSetOps);
    }
  }

  lemma FilteredStep(rows: seq<Row>, i: nat, includeSetOps: bool)
    requires i < |rows|
    ensures Filtered(rows[..i + 1], includeSetOps)
            == Filtered(rows[..i], includeSetOps)
               + (if Accepts(rows[i].operation, includeSetOps) then [rows[i]] else [])
  {
    assert rows[..i + 1][..i] == rows[..i];
  }

  /** The number of entries a file contributes: ceil(k / n) for k filtered
      rows. */
  lemma RepresentativeCount(reps: seq<Row>, rows: seq<Row>, n: nat, includeSetOps: bool)
    requires n > 0 && IsRepresentatives(reps, rows, n, includeSetOps)
    ensures |reps| == CeilDiv(|Filtered(rows, includeSetOps)|, n)
  {
    WindowsShape(Filtered(rows, includeSetOps), n);
  }

  /** The two policies on a file of `set` rows only: the default policy
      samples nothing from it, while including set operations samples
      ceil(k / n) rows from its k rows. */
  lemma SetOnlyFile(reps: seq<Row>, rows: seq<Row>, n: nat)
    requires n > 0
    requires forall i :: 0 <= i < |rows| ==> rows[i].operation == "set"
    ensures IsRepresentatives(reps, rows, n, false) ==> reps == []
    ensures IsRepresentatives(reps, rows, n, true) ==> |reps| == CeilDiv(|rows|, n)
  {
    FilteredNoneAccepted(rows, false);
    FilteredAllAccepted(rows, true);
    if IsRepresentatives(reps, rows, n, false) {
      RepresentativeCount(reps, rows, n, false);
    }
    if IsRepresentatives(reps, rows, n, true) {
      RepresentativeCount(reps, rows, n, true);
    }
  }

  /** Every representative is a filtered row of its own file, and they
      come out in file order. */
  lemma RepresentativesAreFilteredRows(reps: seq<Row>, rows: seq<Row>, n: nat, includeSetOps: bool)
    requires n > 0 && IsRepresentatives(reps, rows, n, includeSetOps)
    ensures IsSubsequence(reps, Filtered(rows, includeSetOps))
    ensures forall r :: r in reps ==> r in rows && Accepts(r.operation, includeSetOps)
  {
    var kept := Filtered(rows, includeSetOps);
    SampleIsSubsequence(reps, kept, n);
    SubsequenceMembers(reps, kept);
    FilteredRows(rows, includeSetOps);
  }

  /** A sample of a timestamp-ordered file is itself timestamp-ordered
      (subsequences keep relative order). */
  lemma {:induction false} SubsequenceKeepsOrder(a: seq<Row>, b: seq<Row>)
    requires IsSubsequence(a, b) && SortedByTimestamp(b)
    ensures SortedByTimestamp(a)
    decreases |b|
  {
    if a != [] && b != [] {
      assert SortedByTimestamp(b[1..]);
      if a[0] == b[0] && IsSubsequence(a[1..], b[1..]) {
        SubsequenceKeepsOrder(a[1..], b[1..]);
        SubsequenceMembers(a[1..], b[1..]);
        forall j | 1 <= j < |a| ensures a[0].timestamp <= a[j].timestamp {
          assert a[j] == a[1..][j - 1];
          assert a[j] in b[1..];
        }
      } else {
        SubsequenceKeepsOrder(a, b[1..]);
      }
    }
  }

  // ---------------------------------------------------------------------------
  // The merge
  // ---------------------------------------------------------------------------

  /** `picks` holds a legal sample of every input file, file by file. */
  ghost predicate IsPool(picks: seq<seq<Row>>, files: seq<seq<Row>>, n: nat, includeSetOps: bool)
    requires n > 0
  {
    |picks| == |files|
    && forall f :: 0 <= f < |files| ==> IsRepresentatives(picks[f], files[f], n, includeSetOps)
  }

  /** Total number of representatives of all files. */
  function PoolSize(files: seq<seq<Row>>, n: nat, includeSetOps: bool): nat
    requires n > 0
  {
    if files == [] then 0
    else PoolSize(files[..|files| - 1], n, includeSetOps)
         + CeilDiv(|Filtered(files[|files| - 1], includeSetOps)|, n)
  }

  lemma {:induction false} PoolSizeOf(picks: seq<seq<Row>>, files: seq<seq<Row>>, n: nat, includeSetOps: bool)
    requires n > 0 && IsPool(picks, files, n, includeSetOps)
    ensures |Flatten(picks)| == PoolSize(files, n, includeSetOps)
    decreases |files|
  {
    if files != [] {
      var k := |files| - 1;
      assert IsPool(picks[..k], files[..k], n, includeSetOps);
      PoolSizeOf(picks[..k], files[..k], n, includeSetOps);
      FlattenSnoc(picks[..k], picks[k]);
      assert picks[..k] + [picks[k]] == picks;
      RepresentativeCount(picks[k], files[k], n, includeSetOps);
    }
  }

  lemma {:induction false} PoolAccepted(picks: seq<seq<Row>>, files: seq<seq<Row>>, n: nat, includeSetOps: bool)
    requires n > 0 && IsPool(picks, files, n, includeSetOps)
    ensures forall r :: r in Flatten(picks) ==> Accepts(r.operation, includeSetOps)
    decreases |files|
  {
    if files != [] {
      var k := |files| - 1;
      assert IsPool(picks[..k], files[..k], n, includeSetOps);
      PoolAccepted(picks[..k], files[..k], n, includeSetOps);
      FlattenSnoc(picks[..k], picks[k]);
      assert picks[..k] + [picks[k]] == picks;
      RepresentativesAreFilteredRows(picks[k], files[k], n, includeSetOps);
    }
  }

  /** mergeAndTransformCsv: pool the representatives of every file in the
      queue, then pop the smallest timestamp until the queue is empty,
      writing each popped entry as one line. `written` is the sequence of
      entries in the order their lines were written. */
  method MergeAndTransform(files: seq<seq<Row>>, n: nat, includeSetOps: bool)
    returns (lines: seq<string>, written: seq<Row>)
    requires n > 0
    ensures lines == FormatAll(written, FormatRow)
    ensures SortedByTimestamp(written)
    ensures |written| == PoolSize(files, n, includeSetOps)
    ensures forall r :: r in written ==> Accepts(r.operation, includeSetOps)
    ensures exists picks :: IsPool(picks, files, n, includeSetOps)
                            && multiset(written) == multiset(Flatten(picks))
  {
    var heap := new MinHeap();
    ghost var picks: seq<seq<Row>> := [];
    var f := 0;
    while f < |files|
      invariant 0 <= f <= |files|
      invariant IsPool(picks, files[..f], n, includeSetOps)
      invariant heap.entries == Flatten(picks)
    {
      ghost var reps := PushRepresentatives(heap, files[f], n, includeSetOps);
      FlattenSnoc(picks, reps);
      IsPoolSnoc(picks, files, f, reps, n, includeSetOps);
      picks := picks + [reps];
      f := f + 1;
    }
    assert files[..f] == files;
    PoolAccepted(picks, files, n, includeSetOps);
    PoolSizeOf(picks, files, n, includeSetOps);
    ghost var pool := Flatten(picks);

    lines, written := Drain(heap, includeSetOps);
    assert multiset(written) == multiset(pool);
    assert |written| == |pool| by {
      assert |multiset(written)| == |multiset(pool)|;
    }
    forall r | r in written ensures Accepts(r.operation, includeSetOps) {
      assert r in multiset(written);
      assert r in multiset(pool);
    }
  }

  lemma IsPoolSnoc(picks: seq<seq<Row>>, files: seq<seq<Row>>, f: nat, reps: seq<Row>, n: nat, includeSetOps: bool)
    requires n > 0 && f < |files|
    requires IsPool(picks, files[..f], n, includeSetOps)
    requires IsRepresentatives(reps, files[f], n, includeSetOps)
    ensures IsPool(picks + [reps], files[..f + 1], n, includeSetOps)
  {
    assert files[..f + 1] == files[..f] + [files[f]];
  }

  /** The drain loop: pops the smallest entry until the queue is empty and
      writes it unless its operation class is unknown (which cannot happen
      for entries that passed the filter). */
  method Drain(heap: MinHeap, includeSetOps: bool) returns (lines: seq<string>, written: seq<Row>)
    requires forall r :: r in heap.entries ==> Accepts(r.operation, includeSetOps)
    modifies heap
    ensures heap.entries == []
    ensures lines == FormatAll(written, FormatRow)
    ensures multiset(written) == multiset(old(heap.entries))
    ensures SortedByTimestamp(written)
  {
    lines, written := [], [];
    while heap.Size() != 0
      invariant lines == FormatAll(written, FormatRow)
      invariant DrainInv(written, heap.entries, old(heap.entries), includeSetOps)
      decreases |heap.entries|
    {
      ghost var before := heap.entries;
      var smallest := heap.Top();
      heap.Pop();
      DrainStep(written, before, heap.entries, smallest, old(heap.entries), includeSetOps);
      var opType := OpType(smallest.operation, includeSetOps);
      if opType.Some? {
        FormatAllSnoc(written, smallest, FormatRow);
        lines := lines + [FormatRow(smallest)];
        written := written + [smallest];
      }
    }
  }

  /** What the drain loop keeps: the entries written and those still queued
      make up the original queue, every queued entry is accepted, and the
      written ones are in timestamp order, none later than any queued one. */
  ghost predicate DrainInv(written: seq<Row>, queued: seq<Row>, original: seq<Row>, includeSetOps: bool)
  {
    multiset(written) + multiset(queued) == multiset(original)
    && (forall r :: r in queued ==> Accepts(r.operation, includeSetOps))
    && SortedByTimestamp(written)
    && (written != [] ==> forall e :: e in queued ==> written[|written| - 1].timestamp <= e.timestamp)
  }

  /** Popping the smallest entry and writing it keeps the drain invariant. */
  lemma DrainStep(written: seq<Row>, before: seq<Row>, after: seq<Row>, t: Row,
                  original: seq<Row>, includeSetOps: bool)
    requires DrainInv(written, before, original, includeSetOps)
    requires t in before && forall e :: e in before ==> t.timestamp <= e.timestamp
    requires multiset(after) + multiset{t} == multiset(before)
    ensures Accepts(t.operation, includeSetOps)
    ensures DrainInv(written + [t], after, original, includeSetOps)
  {
    PopKeeps(before, after, t, includeSetOps);
    SortedSnoc(written, t);
    assert multiset(written + [t]) == multiset(written) + multiset{t};
    assert (written + [t])[|written + [t]| - 1] == t;
  }

  lemma SortedSnoc(s: seq<Row>, t: Row)
    requires SortedByTimestamp(s)
    requires s != [] ==> s[|s| - 1].timestamp <= t.timestamp
    ensures SortedByTimestamp(s + [t])
  {
  }

  /** What the drain loop keeps of the queue after a pop: the remaining
      entries are all accepted and none is earlier than the popped one. */
  lemma PopKeeps(before: seq<Row>, after: seq<Row>, t: Row, includeSetOps: bool)
    requires multiset(after) + multiset{t} == multiset(before)
    requires forall r :: r in before ==> Accepts(r.operation, includeSetOps) && t.timestamp <= r.timestamp
    ensures t in before
    ensures forall r :: r in after ==> Accepts(r.operation, includeSetOps) && t.timestamp <= r.timestamp
  {
    assert t in multiset(before);
    forall r | r in after ensures r in before {
      assert r in multiset(after);
      assert r in multiset(before);
    }
  }

  /** With windows of one row, the output holds every accepted row of every
      file exactly once (a permutation of the concatenated filtered files). */
  lemma MergeWithoutSamplingConserves(picks: seq<seq<Row>>, files: seq<seq<Row>>, includeSetOps: bool)
    requires IsPool(picks, files, 1, includeSetOps)
    ensures Flatten(picks) == AllFiltered(files, includeSetOps)
    decreases |files|
  {
    if files != [] {
      var k := |files| - 1;
      assert IsPool(picks[..k], files[..k], 1, includeSetOps);
      MergeWithoutSamplingConserves(picks[..k], files[..k], includeSetOps);
      FlattenSnoc(picks[..k], picks[k]);
      assert picks[..k] + [picks[k]] == picks;
      WindowOfOneKeepsAll(picks[k], Filtered(files[k], includeSetOps));
    }
  }

  /** The accepted rows of all files, file after file. */
  function AllFiltered(files: seq<seq<Row>>, includeSetOps: bool): seq<Row>
  {
    if files == [] then []
    else AllFiltered(files[..|files| - 1], includeSetOps) + Filtered(files[|files| - 1], includeSetOps)
  }

  // ---------------------------------------------------------------------------
  // Command line
  // ---------------------------------------------------------------------------

  datatype MergeConfig = MergeConfig(
    outputFile: string, n: nat, includeSetOps: bool, inputFiles: seq<string>)

  datatype ArgError =
    | Usage           // fewer than three arguments after the program name
    | NotANumber      // std::stoi throws on the group size (uncaught: the run aborts)
    | NotPositive     // the group size is zero or negative

  /** `main`: arguments after the program name are the output file, the
      group size, an optional `--include-set-ops`, then the input files. */
  function ParseMergeArgs(args: seq<string>): (r: Result<MergeConfig, ArgError>)
    ensures |args| < 3 ==> r == Failure(Usage)
    ensures r.Success? <==> |args| >= 3 && StoI(args[1]).Some? && StoI(args[1]).value > 0
    ensures r.Success? ==> r.value.n > 0 && r.value.n == StoI(args[1]).value
                           && r.value.outputFile == args[0]
                           && r.value.includeSetOps == (args[2] == "--include-set-ops")
                           && r.value.inputFiles == args[if args[2] == "--include-set-ops" then 3 else 2..]
  {
    if |args| < 3 then Failure(Usage)
    else match StoI(args[1])
      case None => Failure(NotANumber)
      case Some(n) =>
        if n <= 0 then Failure(NotPositive)
        else
          var inc := args[2] == "--include-set-ops";
          Success(MergeConfig(args[0], n, inc, args[if inc then 3 else 2..]))
  }
}
