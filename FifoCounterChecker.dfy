/** The FIFO rotation counter (FIFO_counter_checker.py).

    A benchmark log is read line by line: every "…M ops completed" progress
    line adds one to a running count, and every "FIFO rotation count
    becomes from A to B" line closes the count, appends it to the list and
    starts again from zero. Which tasks of a job-queue state file get their
    log read is decided by a chain of guards on the task's JSON. */
module FifoCounterChecker {
  import opened Common

  // ---------------------------------------------------------------------------
  // The two log patterns
  // ---------------------------------------------------------------------------

  const OPS_SUFFIX: string := "M ops completed"
  const FIFO_PREFIX: string := "FIFO rotation count becomes from "

  /** The ops pattern matched with its dot at position i: `\.` then the
      run of digits (which stops at the 'M', a non-digit) then the text
      "M ops completed". */
  predicate OpsMatchAt(line: string, i: nat)
    requires i < |line|
  {
    line[i] == '.' && StartsWith(line[i + 1 + |DigitPrefix(line[i + 1..])|..], OPS_SUFFIX)
  }

  predicate SearchOps(line: string, k: nat)
    decreases |line| - k
  {
    k < |line| && (OpsMatchAt(line, k) || SearchOps(line, k + 1))
  }

  /** `re.search(r"[0-9]*\.[0-9]*M ops completed", line)`; the digits before
      the dot may be none, so they do not decide whether the search
      succeeds. */
  predicate IsOpsLine(line: string)
  {
    SearchOps(line, 0)
  }

  /** The rotation pattern matched from position i: the fixed text, a run of
      digits (which stops at the space), " to ", and at least one digit. */
  predicate RotationMatchAt(line: string, i: nat)
    requires i <= |line|
  {
    StartsWith(line[i..], FIFO_PREFIX) && CountsAt(line, i + |FIFO_PREFIX|)
  }

  /** `(\d+) to (\d+)` from position a, the second run checked for its
      first digit only. */
  predicate CountsAt(line: string, a: nat)
    requires a <= |line|
  {
    var d := DigitPrefix(line[a..]);
    var j := a + |d|;
    |d| > 0 && StartsWith(line[j..], " to ") && j + 4 < |line| && IsDigit(line[j + 4])
  }

  predicate SearchRotation(line: string, k: nat)
    decreases |line| - k
  {
    k < |line| && (RotationMatchAt(line, k) || SearchRotation(line, k + 1))
  }

  /** `re.search(r"FIFO rotation count becomes from (\d+) to (\d+)", line)`. */
  predicate IsRotationLine(line: string)
  {
    SearchRotation(line, 0)
  }

  /** The regular expression's meaning: some dot, followed by digits,
      followed by "M ops completed". */
  ghost predicate OpsPatternOccurs(line: string)
  {
    exists i, j :: 0 <= i < j <= |line| && line[i] == '.' && AllDigits(line[i + 1..j])
                   && StartsWith(line[j..], OPS_SUFFIX)
  }

  ghost predicate RotationPatternOccurs(line: string)
  {
    exists i, j :: 0 <= i && i + |FIFO_PREFIX| < j <= |line| && StartsWith(line[i..], FIFO_PREFIX)
                   && AllDigits(line[i + |FIFO_PREFIX|..j])
                   && StartsWith(line[j..], " to ") && j + 4 < |line| && IsDigit(line[j + 4])
  }

  lemma {:induction false} SearchOpsFrom(line: string, k: nat)
    ensures SearchOps(line, k) <==> exists i :: k <= i < |line| && OpsMatchAt(line, i)
    decreases |line| - k
  {
    if k < |line| {
      SearchOpsFrom(line, k + 1);
      if SearchOps(line, k) {
        if !OpsMatchAt(line, k) {
          var i :| k + 1 <= i < |line| && OpsMatchAt(line, i);
          assert k <= i < |line| && OpsMatchAt(line, i);
        }
      } else {
        forall i | k <= i < |line|
          ensures !OpsMatchAt(line, i)
        {
          if i > k {
            assert !(k + 1 <= i < |line| && OpsMatchAt(line, i));
          }
        }
      }
    }
  }

  lemma {:induction false} SearchRotationFrom(line: string, k: nat)
    ensures SearchRotation(line, k) <==> exists i :: k <= i < |line| && RotationMatchAt(line, i)
    decreases |line| - k
  {
    if k < |line| {
      SearchRotationFrom(line, k + 1);
      if SearchRotation(line, k) {
        if !RotationMatchAt(line, k) {
          var i :| k + 1 <= i < |line| && RotationMatchAt(line, i);
          assert k <= i < |line| && RotationMatchAt(line, i);
        }
      } else {
        forall i | k <= i < |line|
          ensures !RotationMatchAt(line, i)
        {
          if i > k {
            assert !(k + 1 <= i < |line| && RotationMatchAt(line, i));
          }
        }
      }
    }
  }

  lemma OpsMatchOccurs(line: string, i: nat)
    requires i < |line| && OpsMatchAt(line, i)
    ensures OpsPatternOccurs(line)
  {
    var d := DigitPrefix(line[i + 1..]);
    var j := i + 1 + |d|;
    assert line[i + 1..j] == d;
  }

  lemma OccursOpsMatch(line: string, i: nat, j: nat)
    requires 0 <= i < j <= |line| && line[i] == '.' && AllDigits(line[i + 1..j])
    requires StartsWith(line[j..], OPS_SUFFIX)
    ensures OpsMatchAt(line, i)
  {
    var s := line[i + 1..];
    assert s[..j - i - 1] == line[i + 1..j];
    assert s[j - i - 1] == line[j..][0];
    DigitPrefixExact(s, j - i - 1);
  }

  /** The scan finds the ops pattern exactly when it occurs. */
  lemma OpsLineMeaning(line: string)
    ensures IsOpsLine(line) <==> OpsPatternOccurs(line)
  {
    SearchOpsFrom(line, 0);
    if IsOpsLine(line) {
      var i :| 0 <= i < |line| && OpsMatchAt(line, i);
      OpsMatchOccurs(line, i);
    }
    if OpsPatternOccurs(line) {
      var i, j :| 0 <= i < j <= |line| && line[i] == '.' && AllDigits(line[i + 1..j])
                  && StartsWith(line[j..], OPS_SUFFIX);
      OccursOpsMatch(line, i, j);
    }
  }

  lemma RotationMatchOccurs(line: string, i: nat)
    requires i <= |line| && RotationMatchAt(line, i)
    ensures RotationPatternOccurs(line)
  {
    var a := i + |FIFO_PREFIX|;
    var d := DigitPrefix(line[a..]);
    var j := a + |d|;
    assert line[a..j] == d;
    assert i + |FIFO_PREFIX| < j <= |line| && StartsWith(line[i..], FIFO_PREFIX) && AllDigits(line[a..j])
           && StartsWith(line[j..], " to ") && j + 4 < |line| && IsDigit(line[j + 4]);
  }

  lemma OccursRotationMatch(line: string, i: nat, j: nat)
    requires i + |FIFO_PREFIX| < j <= |line| && StartsWith(line[i..], FIFO_PREFIX)
    requires AllDigits(line[i + |FIFO_PREFIX|..j])
    requires StartsWith(line[j..], " to ") && j + 4 < |line| && IsDigit(line[j + 4])
    ensures RotationMatchAt(line, i)
  {
    OccursCounts(line, i + |FIFO_PREFIX|, j);
  }

  lemma OccursCounts(line: string, a: nat, j: nat)
    requires a < j <= |line| && AllDigits(line[a..j])
    requires StartsWith(line[j..], " to ") && j + 4 < |line| && IsDigit(line[j + 4])
    ensures CountsAt(line, a)
  {
    var s := line[a..];
    assert line[j..][0] == ' ';
    assert s[..j - a] == line[a..j];
    assert s[j - a] == line[j];
    DigitPrefixExact(s, j - a);
  }

  /** The scan finds the rotation pattern exactly when it occurs. */
  lemma RotationLineMeaning(line: string)
    ensures IsRotationLine(line) <==> RotationPatternOccurs(line)
  {
    SearchRotationFrom(line, 0);
    if IsRotationLine(line) {
      var i :| 0 <= i < |line| && RotationMatchAt(line, i);
      RotationMatchOccurs(line, i);
    }
    if RotationPatternOccurs(line) {
      var i, j :| 0 <= i && i + |FIFO_PREFIX| < j <= |line| && StartsWith(line[i..], FIFO_PREFIX)
                  && AllDigits(line[i + |FIFO_PREFIX|..j])
                  && StartsWith(line[j..], " to ") && j + 4 < |line| && IsDigit(line[j + 4]);
      OccursRotationMatch(line, i, j);
    }
  }

  /** A progress line is recognised whatever precedes its dot, e.g.
      "12.5M ops completed". */
  lemma ProgressLineRecognised(before: string, digits: string)
    requires AllDigits(digits)
    ensures IsOpsLine(before + "." + digits + OPS_SUFFIX)
  {
    var line := before + "." + digits + OPS_SUFFIX;
    var i := |before|;
    var j := i + 1 + |digits|;
    assert line[i] == '.';
    assert line[i + 1..j] == digits;
    assert line[j..] == OPS_SUFFIX;
    assert StartsWith(line[j..], OPS_SUFFIX) by {
      assert OPS_SUFFIX[..|OPS_SUFFIX|] == OPS_SUFFIX;
      StartsWithIff(line[j..], OPS_SUFFIX);
    }
    OccursOpsMatch(line, i, j);
    SearchOpsFrom(line, 0);
  }

  /** Without a dot no line counts as progress: "12M ops completed" is not
      matched. */
  lemma OpsLineNeedsDot(line: string)
    requires '.' !in line
    ensures !IsOpsLine(line)
  {
    OpsLineMeaning(line);
  }

  /** The line the benchmark prints on a rotation is recognised, whatever
      the two counts. */
  lemma RotationLineRecognised(from: nat, to: nat)
    ensures IsRotationLine(FIFO_PREFIX + NatToString(from) + " to " + NatToString(to))
  {
    var a, b := NatToString(from), NatToString(to);
    var line := FIFO_PREFIX + a + " to " + b;
    var j := |FIFO_PREFIX| + |a|;
    assert line[0..] == line;
    assert line[..|FIFO_PREFIX|] == FIFO_PREFIX;
    assert line[|FIFO_PREFIX|..j] == a;
    assert line[j..][..4] == " to ";
    assert line[j + 4] == b[0];
    StartsWithIff(line[0..], FIFO_PREFIX);
    StartsWithIff(line[j..], " to ");
    OccursRotationMatch(line, 0, j);
    SearchRotationFrom(line, 0);
  }

  // ---------------------------------------------------------------------------
  // parse_log_for_counts
  // ---------------------------------------------------------------------------

  /** What the two searches report for one log line, after stripping. */
  datatype LineKind = LineKind(ops: bool, rotation: bool)

  function KindOf(line: string): LineKind
  {
    LineKind(IsOpsLine(Strip(line)), IsRotationLine(Strip(line)))
  }

  function Kinds(lines: seq<string>): (ks: seq<LineKind>)
    ensures |ks| == |lines|
    ensures forall i :: 0 <= i < |lines| ==> ks[i] == KindOf(lines[i])
  {
    seq(|lines|, i requires 0 <= i < |lines| => KindOf(lines[i]))
  }

  /** The list of closed counts and the running count (Python integers). */
  datatype Tally = Tally(counts: seq<int>, current: int)

  /** The state after lines of these kinds: an ops line adds one, and then
      a rotation line closes the count. */
  function TallyOf(ks: seq<LineKind>): Tally
  {
    if ks == [] then Tally([], 0)
    else Feed(TallyOf(ks[..|ks| - 1]), ks[|ks| - 1])
  }

  /** One line: an ops line adds one, and then a rotation line closes the
      count. */
  function Feed(t: Tally, k: LineKind): Tally
  {
    var c := if k.ops then t.current + 1 else t.current;
    if k.rotation then Close(t.counts, c) else Tally(t.counts, c)
  }

  /** Appending the running count to the closed ones and restarting it. */
  function Close(counts: seq<int>, c: int): Tally
  {
    Tally(counts + [c], 0)
  }

  lemma TallySnoc(ks: seq<LineKind>, k: LineKind)
    ensures TallyOf(ks + [k]) == Feed(TallyOf(ks), k)
  {
    assert (ks + [k])[..|ks|] == ks;
  }

  lemma KindsSnoc(lines: seq<string>, i: nat)
    requires i < |lines|
    ensures TallyOf(Kinds(lines[..i + 1])) == Feed(TallyOf(Kinds(lines[..i])), KindOf(lines[i]))
  {
    assert Kinds(lines[..i + 1]) == Kinds(lines[..i]) + [KindOf(lines[i])];
    TallySnoc(Kinds(lines[..i]), KindOf(lines[i]));
  }

  /** The body of the read loop for one raw line. */
  method CountLine(counts: seq<int>, currentCount: int, rawLine: string)
    returns (counts': seq<int>, currentCount': int)
    ensures Tally(counts', currentCount') == Feed(Tally(counts, currentCount), KindOf(rawLine))
  {
    counts', currentCount' := counts, currentCount;
    var line := Strip(rawLine);
    if IsOpsLine(line) {
      currentCount' := currentCount' + 1;
    }
    if IsRotationLine(line) {
      counts' := counts' + [currentCount'];
      currentCount' := 0;
    }
  }

  /** The log file's lines, or None when there is no such file. */
  method ParseLogForCounts(log: Option<seq<string>>) returns (counts: seq<int>)
    ensures log.None? ==> counts == []
    ensures log.Some? ==> counts == TallyOf(Kinds(log.value)).counts
  {
    counts := [];
    var currentCount := 0;
    if log.None? {
      return;
    }
    var lines := log.value;
    var i := 0;
    while i < |lines|
      invariant 0 <= i <= |lines|
      invariant Tally(counts, currentCount) == TallyOf(Kinds(lines[..i]))
    {
      counts, currentCount := CountLine(counts, currentCount, lines[i]);
      KindsSnoc(lines, i);
      i := i + 1;
    }
    assert lines[..i] == lines;
  }

  /** The number of ops lines. */
  function OpsCount(ks: seq<LineKind>): nat
  {
    if ks == [] then 0
    else OpsCount(ks[..|ks| - 1]) + OpsOf(ks[|ks| - 1])
  }

  /** One for an ops line, zero otherwise. */
  function OpsOf(k: LineKind): nat
  {
    if k.ops then 1 else 0
  }

  /** The number of rotation lines. */
  function RotationCount(ks: seq<LineKind>): nat
  {
    if ks == [] then 0
    else RotationCount(ks[..|ks| - 1]) + if ks[|ks| - 1].rotation then 1 else 0
  }

  /** No line is a rotation line. */
  predicate RotationFree(ks: seq<LineKind>)
  {
    forall i :: 0 <= i < |ks| ==> !ks[i].rotation
  }

  /** One count per rotation line, and no ops line lost: the closed counts
      and the running count add up to the ops lines read. */
  lemma {:induction false} TallyTotals(ks: seq<LineKind>)
    ensures |TallyOf(ks).counts| == RotationCount(ks)
    ensures Sum(TallyOf(ks).counts) + TallyOf(ks).current == OpsCount(ks)
  {
    if ks != [] {
      var init := ks[..|ks| - 1];
      TallyTotals(init);
      var t := TallyOf(init);
      var c := t.current + OpsOf(ks[|ks| - 1]);
      SumAppend(t.counts, [c]);
      assert Sum([c]) == c by {
        assert [c][..0] == [];
      }
    }
  }

  /** Lines without a rotation only add their ops lines to the running
      count. */
  lemma {:induction false} TallyQuiet(ks: seq<LineKind>, rest: seq<LineKind>)
    requires RotationFree(rest)
    ensures TallyOf(ks + rest) == Tally(TallyOf(ks).counts, TallyOf(ks).current + OpsCount(rest))
    decreases |rest|
  {
    if rest == [] {
      assert ks + rest == ks;
    } else {
      var init, last := rest[..|rest| - 1], rest[|rest| - 1];
      assert rest == init + [last];
      assert ks + rest == (ks + init) + [last];
      TallyQuiet(ks, init);
      TallySnoc(ks + init, last);
    }
  }

  lemma OpsCountSnoc(ks: seq<LineKind>, k: LineKind)
    ensures OpsCount(ks + [k]) == OpsCount(ks) + OpsOf(k)
  {
    assert (ks + [k])[..|ks|] == ks;
  }

  /** A rotation line closes a count holding every ops line since the
      previous rotation, the rotation line itself included when it also
      matches the ops pattern (the ops check runs first). */
  lemma TallySegment(ks: seq<LineKind>, seg: seq<LineKind>, k: LineKind)
    requires RotationFree(seg) && k.rotation
    ensures TallyOf(ks + seg + [k]) == Close(TallyOf(ks).counts, TallyOf(ks).current + OpsCount(seg + [k]))
  {
    var s := ks + seg;
    TallyQuiet(ks, seg);
    TallySnoc(s, k);
    OpsCountSnoc(seg, k);
    var t := TallyOf(s);
    assert Feed(t, k) == Close(t.counts, t.current + OpsOf(k));
  }

  /** Ops lines after the last rotation line are never reported: when the
      log is a head ending in a rotation line (or empty) followed by
      rotation-free lines, the reported counts add up to the ops lines of
      the head. */
  lemma ReportedOps(head: seq<LineKind>, rest: seq<LineKind>)
    requires head == [] || head[|head| - 1].rotation
    requires RotationFree(rest)
    ensures Sum(TallyOf(head + rest).counts) == OpsCount(head)
  {
    TallyQuiet(head, rest);
    TallyTotals(head);
  }

  // ---------------------------------------------------------------------------
  // Task selection in process_tasks_from_json
  // ---------------------------------------------------------------------------

  /** A JSON value as `json.load` returns it (numbers as integers). */
  datatype Json =
    | JNull
    | JBool(b: bool)
    | JNum(n: int)
    | JStr(s: string)
    | JArr(items: seq<Json>)
    | JObj(fields: map<string, Json>)

  /** Python truthiness: None, False, 0 and empty strings, lists and dicts
      are false. */
  predicate Truthy(j: Json)
  {
    match j
    case JNull => false
    case JBool(b) => b
    case JNum(n) => n != 0
    case JStr(s) => s != ""
    case JArr(items) => items != []
    case JObj(fields) => fields != map[]
  }

  /** `d.get(key, default)` on a dict. */
  function Get(d: map<string, Json>, key: string, default: Json): (v: Json)
    ensures key in d ==> v == d[key]
    ensures key !in d ==> v == default
  {
    if key in d then d[key] else default
  }

  /** `str.lower()` on ASCII letters. */
  function Lower(s: string): (r: string)
    ensures |r| == |s|
    ensures forall i :: 0 <= i < |s| ==>
              r[i] == if 'A' <= s[i] <= 'Z' then (s[i] as int + 32) as char else s[i]
  {
    if s == [] then []
    else
      var c := s[0];
      [if 'A' <= c <= 'Z' then (c as int + 32) as char else c] + Lower(s[1..])
  }

  /** `needle in s` for strings. */
  predicate Contains(s: string, needle: string)
  {
    exists i :: 0 <= i <= |s| && StartsWith(s[i..], needle)
  }

  /** What the loop body does with one task: skip it, read its log under
      this label, or stop the script with an exception. */
  datatype Selection = Skip | Process(taskLabel: string) | Crash

  /** The guards of the task loop: the task's "status" must be a dict, its
      "Done" entry truthy and its "result" "Success", and its "label" a
      non-empty string containing "lsm" in any letter case. `.get` on a
      truthy "Done" that is not a dict, or `.lower()` on a truthy label that
      is not a string, raises. */
  function SelectTask(task: map<string, Json>): (sel: Selection)
    ensures sel.Process? <==>
              var status := Get(task, "status", JObj(map[]));
              status.JObj? && "Done" in status.fields
              && status.fields["Done"].JObj? && status.fields["Done"].fields != map[]
              && Get(status.fields["Done"].fields, "result", JStr("")) == JStr("Success")
              && "label" in task && task["label"].JStr? && task["label"].s != ""
              && Contains(Lower(task["label"].s), "lsm")
    ensures sel.Process? ==> sel.taskLabel == task["label"].s
  {
    var status := Get(task, "status", JObj(map[]));
    if !status.JObj? then Skip
    else
      var doneInfo := Get(status.fields, "Done", JNull);
      if !Truthy(doneInfo) then Skip
      else if !doneInfo.JObj? then Crash
      else
        var result := Get(doneInfo.fields, "result", JStr(""));
        if result != JStr("Success") then Skip
        else
          var taskLabel := Get(task, "label", JStr(""));
          if !Truthy(taskLabel) then Skip
          else if !taskLabel.JStr? then Crash
          else if !Contains(Lower(taskLabel.s), "lsm") then Skip
          else Process(taskLabel.s)
  }

  /** Letter case of the label does not matter: two labels with the same
      lower-case form give the same decision. */
  lemma SelectIgnoresCase(task: map<string, Json>, l1: string, l2: string)
    requires Lower(l1) == Lower(l2)
    ensures SelectTask(task["label" := JStr(l1)]).Skip? <==> SelectTask(task["label" := JStr(l2)]).Skip?
    ensures SelectTask(task["label" := JStr(l1)]).Crash? <==> SelectTask(task["label" := JStr(l2)]).Crash?
  {
    assert l1 == "" <==> l2 == "" by {
      assert |Lower(l1)| == |l1| && |Lower(l2)| == |l2|;
    }
  }
}
