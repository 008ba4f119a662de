/** The trace statistics tool (trace_info.cpp). It reads five-column records
    (key, op, size, op_count, key_size) and feeds each one to three
    accumulators: every record goes to "All", and to "Under 2KB" when its
    object size is at most 2048 bytes or to "Over 2KB" otherwise. Each
    accumulator keeps running totals, a line count and, per key, the sum of
    object sizes and the number of occurrences. From these it reports the
    total object size (footprint 1) and the sum over keys of each key's
    average object size (footprint 2). */
module TraceInfo {
  import opened Common

  const TWO_KB: int := 2048

  /** Per-key aggregate: sum of object sizes and number of occurrences. */
  datatype KeyAgg = KeyAgg(sumObjectSize: int, count: int)

  /** The integer part of the statistics; the three averages are floating
      point and are not part of this model. */
  datatype Stats = Stats(sumObjectSize: int, sumKeyBasedAvg: int)

  /** C++ integer division, which truncates toward zero (Dafny's `/` is
      Euclidean and differs for negative dividends). */
  function TruncDiv(a: int, b: int): (q: int)
    requires b > 0
  {
    if a >= 0 then a / b else -((-a) / b)
  }

  /** Truncating division is odd in its dividend. */
  lemma TruncDivOdd(a: int, b: int)
    requires b > 0
    ensures TruncDiv(-a, b) == -TruncDiv(a, b)
  {
    if a == 0 {
      assert TruncDiv(0, b) == 0 / b == 0;
    }
  }

  /** For a non-negative dividend the quotient lies between 0 and the
      dividend. */
  lemma TruncDivBounds(a: int, b: int)
    requires b > 0 && a >= 0
    ensures 0 <= TruncDiv(a, b) <= a
  {
    DivAtMost(a, b);
  }

  lemma DivAtMost(a: nat, b: int)
    requires b > 0
    ensures a / b <= a
  {
    var q := a / b;
    assert a == q * b + a % b;
    if q > a {
      MulAtLeast(b, q);
    }
  }

  function CountOf(a: KeyAgg): int { a.count }

  function SizeOf(a: KeyAgg): int { a.sumObjectSize }

  /** A key's average object size, as `computeStats` adds it up. */
  function AvgOf(a: KeyAgg): int
  {
    if a.count > 0 then TruncDiv(a.sumObjectSize, a.count) else 0
  }

  // ---------------------------------------------------------------------------
  // Sums over the per-key map
  // ---------------------------------------------------------------------------

  /** The sum of `f` over the map's values, in no particular order. */
  ghost function SumOver(m: map<string, KeyAgg>, f: KeyAgg -> int): int
    decreases |m|
  {
    if |m| == 0 then 0
    else
      var k := Pick(m);
      f(m[k]) + SumOver(m - {k}, f)
  }

  /** Some key of a non-empty map. */
  ghost function Pick(m: map<string, KeyAgg>): (k: string)
    requires |m| > 0
    ensures k in m
  {
    assert m != map[];
    var k :| k in m; k
  }

  /** Any key can be taken out first: the sum does not depend on the
      order in which the map is walked. */
  lemma {:induction false} SumOverRemove(m: map<string, KeyAgg>, f: KeyAgg -> int, k: string)
    requires k in m
    ensures SumOver(m, f) == f(m[k]) + SumOver(m - {k}, f)
    decreases |m|
  {
    var j := Pick(m);
    if j != k {
      var mj := m - {j};
      var mk := m - {k};
      SumOverRemove(mj, f, k);
      SumOverRemove(mk, f, j);
      assert mj - {k} == mk - {j};
    }
  }

  /** Setting one key's value changes the sum by the difference. */
  lemma SumOverUpdate(m: map<string, KeyAgg>, f: KeyAgg -> int, k: string, v: KeyAgg)
    ensures SumOver(m[k := v], f) == SumOver(m, f) - (if k in m then f(m[k]) else 0) + f(v)
  {
    var m' := m[k := v];
    SumOverRemove(m', f, k);
    assert m' - {k} == m - {k};
    if k in m {
      SumOverRemove(m, f, k);
    } else {
      assert m - {k} == m;
    }
  }

  /** A sum of smaller terms is smaller. */
  lemma {:induction false} SumOverMono(m: map<string, KeyAgg>, f: KeyAgg -> int, g: KeyAgg -> int)
    requires forall k :: k in m ==> f(m[k]) <= g(m[k])
    ensures SumOver(m, f) <= SumOver(m, g)
    decreases |m|
  {
    if |m| > 0 {
      var k :| k in m;
      SumOverRemove(m, f, k);
      SumOverRemove(m, g, k);
      SumOverMono(m - {k}, f, g);
    }
  }

  /** The aggregate a key has before any occurrence. */
  function AggOrZero(m: map<string, KeyAgg>, key: string): KeyAgg
  {
    if key in m then m[key] else KeyAgg(0, 0)
  }

  /** One more occurrence of a key of the given object size. */
  function Bump(a: KeyAgg, objectSize: int): KeyAgg
  {
    KeyAgg(a.sumObjectSize + objectSize, a.count + 1)
  }

  // ---------------------------------------------------------------------------
  // The accumulator
  // ---------------------------------------------------------------------------

  class StatsAccumulator {
    var totalKeySize: int
    var totalValueSize: int
    var totalObjectSize: int
    var lineCount: int
    var mapKeyAgg: map<string, KeyAgg>

    /** The per-key map agrees with the totals: its counts add up to the
        line count, its size sums to the total object size, and every key
        in it has been seen. */
    ghost predicate Valid()
      reads this
    {
      lineCount == SumOver(mapKeyAgg, CountOf)
      && totalObjectSize == SumOver(mapKeyAgg, SizeOf)
      && forall k :: k in mapKeyAgg ==> mapKeyAgg[k].count > 0
    }

    constructor ()
      ensures totalKeySize == 0 && totalValueSize == 0 && totalObjectSize == 0 && lineCount == 0
      ensures mapKeyAgg == map[]
      ensures Valid()
    {
      totalKeySize := 0;
      totalValueSize := 0;
      totalObjectSize := 0;
      lineCount := 0;
      mapKeyAgg := map[];
    }

    /** `updateStats`: adds one record to the totals and to its key's
        aggregate (created at zero on first sight); other keys are left
        alone. */
    method UpdateStats(key: string, keySize: int, valueSize: int, objectSize: int)
      requires Valid()
      modifies this
      ensures Valid()
      ensures totalKeySize == old(totalKeySize) + keySize
      ensures totalValueSize == old(totalValueSize) + valueSize
      ensures totalObjectSize == old(totalObjectSize) + objectSize
      ensures lineCount == old(lineCount) + 1
      ensures mapKeyAgg == old(mapKeyAgg)[key := Bump(AggOrZero(old(mapKeyAgg), key), objectSize)]
    {
      totalKeySize := totalKeySize + keySize;
      totalValueSize := totalValueSize + valueSize;
      totalObjectSize := totalObjectSize + objectSize;
      lineCount := lineCount + 1;
      var agg := AggOrZero(mapKeyAgg, key);
      SumOverUpdate(mapKeyAgg, CountOf, key, Bump(agg, objectSize));
      SumOverUpdate(mapKeyAgg, SizeOf, key, Bump(agg, objectSize));
      mapKeyAgg := mapKeyAgg[key := Bump(agg, objectSize)];
    }

    /** `computeStats` (integer part): all zero for an empty accumulator;
        otherwise footprint 1 is the total object size and footprint 2 the
        sum over keys of each key's truncated average. The per-key loop
        visits the keys in an unspecified order. */
    method ComputeStats() returns (s: Stats)
      ensures lineCount == 0 ==> s == Stats(0, 0)
      ensures lineCount != 0 ==> s == Stats(totalObjectSize, SumOver(mapKeyAgg, AvgOf))
    {
      if lineCount == 0 {
        return Stats(0, 0);
      }
      var sumKeyAverages := 0;
      var rest := mapKeyAgg;
      while rest != map[]
        invariant sumKeyAverages + SumOver(rest, AvgOf) == SumOver(mapKeyAgg, AvgOf)
        decreases |rest|
      {
        var k :| k in rest;
        var agg := rest[k];
        SumOverRemove(rest, AvgOf, k);
        if agg.count > 0 {
          sumKeyAverages := sumKeyAverages + TruncDiv(agg.sumObjectSize, agg.count);
        }
        rest := rest - {k};
      }
      s := Stats(totalObjectSize, sumKeyAverages);
    }
  }

  // ---------------------------------------------------------------------------
  // Records and their aggregates
  // ---------------------------------------------------------------------------

  /** One parsed record; the value size is object size minus key size. */
  datatype Record = Record(key: string, keySize: int, valueSize: int, objectSize: int)

  function KeySizes(rs: seq<Record>): int
  {
    if rs == [] then 0 else KeySizes(rs[..|rs| - 1]) + rs[|rs| - 1].keySize
  }

  function ValueSizes(rs: seq<Record>): int
  {
    if rs == [] then 0 else ValueSizes(rs[..|rs| - 1]) + rs[|rs| - 1].valueSize
  }

  function ObjectSizes(rs: seq<Record>): int
  {
    if rs == [] then 0 else ObjectSizes(rs[..|rs| - 1]) + rs[|rs| - 1].objectSize
  }

  /** The per-key map after the records, in order. */
  function Aggregate(rs: seq<Record>): map<string, KeyAgg>
  {
    if rs == [] then map[]
    else
      var m := Aggregate(rs[..|rs| - 1]);
      var r := rs[|rs| - 1];
      m[r.key := Bump(AggOrZero(m, r.key), r.objectSize)]
  }

  /** The records routed to "Under 2KB" (object size at most 2048). */
  function UnderOf(rs: seq<Record>): seq<Record>
  {
    if rs == [] then []
    else UnderOf(rs[..|rs| - 1]) + (if rs[|rs| - 1].objectSize <= TWO_KB then [rs[|rs| - 1]] else [])
  }

  /** The records routed to "Over 2KB". */
  function OverOf(rs: seq<Record>): seq<Record>
  {
    if rs == [] then []
    else OverOf(rs[..|rs| - 1]) + (if rs[|rs| - 1].objectSize <= TWO_KB then [] else [rs[|rs| - 1]])
  }

  /** The statistics an accumulator fed with exactly these records reports. */
  ghost function StatsOf(rs: seq<Record>): Stats
  {
    if rs == [] then Stats(0, 0) else Stats(ObjectSizes(rs), SumOver(Aggregate(rs), AvgOf))
  }

  /** The per-key map holds exactly the keys seen; its counts add up to the
      number of records and its sizes to the total object size. */
  lemma {:induction false} AggregateSums(rs: seq<Record>)
    ensures SumOver(Aggregate(rs), CountOf) == |rs|
    ensures SumOver(Aggregate(rs), SizeOf) == ObjectSizes(rs)
    ensures forall k :: k in Aggregate(rs) ==> Aggregate(rs)[k].count > 0
    ensures forall i :: 0 <= i < |rs| ==> rs[i].key in Aggregate(rs)
    decreases |rs|
  {
    if rs != [] {
      var init := rs[..|rs| - 1];
      var r := rs[|rs| - 1];
      var m := Aggregate(init);
      AggregateSums(init);
      SumOverUpdate(m, CountOf, r.key, Bump(AggOrZero(m, r.key), r.objectSize));
      SumOverUpdate(m, SizeOf, r.key, Bump(AggOrZero(m, r.key), r.objectSize));
      forall i | 0 <= i < |rs| ensures rs[i].key in Aggregate(rs) {
        if i < |init| {
          assert rs[i] == init[i];
        }
      }
    }
  }

  /** Each record is routed to exactly one of the two size classes, so the
      record count and every total of "All" is the sum of the two. */
  lemma {:induction false} RoutingConserves(rs: seq<Record>)
    ensures |UnderOf(rs)| + |OverOf(rs)| == |rs|
    ensures KeySizes(UnderOf(rs)) + KeySizes(OverOf(rs)) == KeySizes(rs)
    ensures ValueSizes(UnderOf(rs)) + ValueSizes(OverOf(rs)) == ValueSizes(rs)
    ensures ObjectSizes(UnderOf(rs)) + ObjectSizes(OverOf(rs)) == ObjectSizes(rs)
    decreases |rs|
  {
    if rs != [] {
      var init := rs[..|rs| - 1];
      var r := rs[|rs| - 1];
      RoutingConserves(init);
      if r.objectSize <= TWO_KB {
        assert OverOf(rs) == OverOf(init) + [];
        assert OverOf(rs) == OverOf(init);
        assert UnderOf(rs) == UnderOf(init) + [r];
        RecordSumsSnoc(UnderOf(init), r);
      } else {
        assert UnderOf(rs) == UnderOf(init) + [];
        assert UnderOf(rs) == UnderOf(init);
        assert OverOf(rs) == OverOf(init) + [r];
        RecordSumsSnoc(OverOf(init), r);
      }
    }
  }

  lemma RecordSumsSnoc(rs: seq<Record>, r: Record)
    ensures KeySizes(rs + [r]) == KeySizes(rs) + r.keySize
    ensures ValueSizes(rs + [r]) == ValueSizes(rs) + r.valueSize
    ensures ObjectSizes(rs + [r]) == ObjectSizes(rs) + r.objectSize
  {
    assert (rs + [r])[..|rs|] == rs;
  }

  /** Every record in "Under 2KB" is at most 2048 bytes and every record in
      "Over 2KB" above it. */
  lemma {:induction false} RoutingClasses(rs: seq<Record>)
    ensures forall r :: r in UnderOf(rs) ==> r in rs && r.objectSize <= TWO_KB
    ensures forall r :: r in OverOf(rs) ==> r in rs && r.objectSize > TWO_KB
    decreases |rs|
  {
    if rs != [] {
      RoutingClasses(rs[..|rs| - 1]);
    }
  }

  /** Footprint 1 of "All" is footprint 1 of "Under 2KB" plus that of
      "Over 2KB". */
  lemma Footprint1Conserved(rs: seq<Record>)
    ensures StatsOf(UnderOf(rs)).sumObjectSize + StatsOf(OverOf(rs)).sumObjectSize
            == StatsOf(rs).sumObjectSize
  {
    RoutingConserves(rs);
  }

  /** With non-negative object sizes footprint 2 never exceeds footprint 1:
      each key's average is at most its sum. */
  lemma Footprint2AtMostFootprint1(rs: seq<Record>)
    requires forall i :: 0 <= i < |rs| ==> rs[i].objectSize >= 0
    ensures 0 <= StatsOf(rs).sumKeyBasedAvg <= StatsOf(rs).sumObjectSize
  {
    if rs != [] {
      var m := Aggregate(rs);
      AggregateSums(rs);
      AggregateNonNegative(rs);
      forall k | k in m ensures AvgOf(m[k]) <= SizeOf(m[k]) && 0 <= AvgOf(m[k]) {
        TruncDivBounds(m[k].sumObjectSize, m[k].count);
      }
      SumOverMono(m, AvgOf, SizeOf);
      SumOverNonNegative(m, AvgOf);
    }
  }

  lemma {:induction false} AggregateNonNegative(rs: seq<Record>)
    requires forall i :: 0 <= i < |rs| ==> rs[i].objectSize >= 0
    ensures forall k :: k in Aggregate(rs) ==> Aggregate(rs)[k].sumObjectSize >= 0
    decreases |rs|
  {
    if rs != [] {
      AggregateNonNegative(rs[..|rs| - 1]);
    }
  }

  lemma {:induction false} SumOverNonNegative(m: map<string, KeyAgg>, f: KeyAgg -> int)
    requires forall k :: k in m ==> f(m[k]) >= 0
    ensures SumOver(m, f) >= 0
    decreases |m|
  {
    if |m| > 0 {
      var k :| k in m;
      SumOverRemove(m, f, k);
      SumOverNonNegative(m - {k}, f);
    }
  }

  // ---------------------------------------------------------------------------
  // Reading the trace
  // ---------------------------------------------------------------------------

  /** What one line contributes: nothing, a record, or an uncaught
      `std::stoi` exception that ends the run. */
  datatype LineOutcome = Skip | Take(record: Record) | Abort

  /** A line after the first: skipped when empty or when fewer than five
      comma-separated fields can be read; the size and key-size fields go
      through `std::stoi`. */
  function DataLine(line: string): (o: LineOutcome)
    ensures var fs := GetlineSplit(line, ',');
            o.Skip? <==> |fs| < 5
    ensures var fs := GetlineSplit(line, ',');
            o.Abort? <==> |fs| >= 5 && (StoI(fs[2]).None? || StoI(fs[4]).None?)
    ensures var fs := GetlineSplit(line, ',');
            o.Take? ==> |fs| >= 5 && o.record.key == fs[0]
                        && StoI(fs[2]) == Some(o.record.objectSize) && StoI(fs[4]) == Some(o.record.keySize)
                        && o.record.valueSize == o.record.objectSize - o.record.keySize
  {
    if line == [] then Skip
    else
      var fs := GetlineSplit(line, ',');
      if |fs| < 5 then Skip
      else
        var objectSize := StoI(fs[2]);
        var keySize := StoI(fs[4]);
        if objectSize.None? || keySize.None? then Abort
        else Take(Record(fs[0], keySize.value, objectSize.value - keySize.value, objectSize.value))
  }

  /** The first line: skipped when it starts with the header text; else
      read like a data line, except that the op-count field is converted
      too and can also end the run. */
  function FirstLine(line: string): (o: LineOutcome)
    ensures var fs := GetlineSplit(line, ',');
            o.Skip? <==> StartsWith(line, HEADER) || |fs| < 5
    ensures var fs := GetlineSplit(line, ',');
            o.Abort? <==> !StartsWith(line, HEADER) && |fs| >= 5
                          && (StoI(fs[2]).None? || StoI(fs[3]).None? || StoI(fs[4]).None?)
    ensures var fs := GetlineSplit(line, ',');
            o.Take? ==> |fs| >= 5 && o.record.key == fs[0]
                        && StoI(fs[2]) == Some(o.record.objectSize) && StoI(fs[4]) == Some(o.record.keySize)
                        && o.record.valueSize == o.record.objectSize - o.record.keySize
  {
    if StartsWith(line, HEADER) then Skip
    else
      var fs := GetlineSplit(line, ',');
      if |fs| < 5 then Skip
      else
        var objectSize := StoI(fs[2]);
        var opCount := StoI(fs[3]);
        var keySize := StoI(fs[4]);
        if objectSize.None? || opCount.None? || keySize.None? then Abort
        else Take(Record(fs[0], keySize.value, objectSize.value - keySize.value, objectSize.value))
  }

  /** A first line that is not the header is read like a data line, except
      that a bad op-count field ends the run too. */
  lemma FirstLineLikeData(line: string)
    requires !StartsWith(line, HEADER)
    ensures var fs := GetlineSplit(line, ',');
            FirstLine(line) == if |fs| >= 5 && StoI(fs[3]).None? then Abort else DataLine(line)
  {
  }

  /** A trace line `key,op,size,op_count,key_size` with comma-free text
      fields and sizes in `int` range reads back as the record of that key
      and those sizes, its value size the object size less the key size. */
  lemma DataLineReadsBack(key: string, op: string, size: nat, opCount: nat, keySize: nat)
    requires ',' !in key && ',' !in op
    requires size < 0x8000_0000 && keySize < 0x8000_0000
    ensures DataLine(Join([key, op, NatToString(size), NatToString(opCount), NatToString(keySize)], ','))
            == Take(Record(key, keySize, size - keySize, size))
  {
    var fs := [key, op, NatToString(size), NatToString(opCount), NatToString(keySize)];
    assert fs[0] == key && fs[2] == NatToString(size) && fs[4] == NatToString(keySize);
    StoIOfNatToString(size);
    StoIOfNatToString(keySize);
    JoinedFieldsSplit(key, op, NatToString(size), NatToString(opCount), NatToString(keySize));
    DataLineOfFields(Join(fs, ','), fs, size, keySize);
  }

  lemma DataLineOfFields(line: string, fs: seq<string>, size: int, keySize: int)
    requires GetlineSplit(line, ',') == fs && |fs| == 5
    requires StoI(fs[2]) == Some(size) && StoI(fs[4]) == Some(keySize)
    ensures DataLine(line) == Take(Record(fs[0], keySize, size - keySize, size))
  {
  }

  /** Five comma-free fields, the last three numerals, joined by commas
      give back the five fields under `getline`. */
  lemma JoinedFieldsSplit(key: string, op: string, a: string, b: string, c: string)
    requires ',' !in key && ',' !in op
    requires |a| > 0 && AllDigits(a) && |b| > 0 && AllDigits(b) && |c| > 0 && AllDigits(c)
    ensures GetlineSplit(Join([key, op, a, b, c], ','), ',') == [key, op, a, b, c]
  {
    var fs := [key, op, a, b, c];
    forall i | 0 <= i < 5 ensures ',' !in fs[i] {
      if i >= 2 {
        assert AllDigits(fs[i]);
      }
    }
    SplitAllJoin(fs, ',');
  }

  /** Appends a line's outcome to the records read so far; None once the
      run has ended. */
  function Then(so: Option<seq<Record>>, o: LineOutcome): Option<seq<Record>>
  {
    match so
    case None => None
    case Some(rs) =>
      match o
      case Skip => Some(rs)
      case Abort => None
      case Take(r) => Some(rs + [r])
  }

  /** The records of lines 1.. after a first-line outcome. */
  function DataRecords(lines: seq<string>, first: LineOutcome): Option<seq<Record>>
  {
    if lines == [] then Then(Some([]), first)
    else Then(DataRecords(lines[..|lines| - 1], first), DataLine(lines[|lines| - 1]))
  }

  /** The records the tool accumulates, or None when a conversion aborts
      the run. */
  function TraceRecords(lines: seq<string>): Option<seq<Record>>
  {
    if lines == [] then Some([]) else DataRecords(lines[1..], FirstLine(lines[0]))
  }

  /** The three reports, in the order they are written. */
  datatype Report = Report(under: Stats, over: Stats, all: Stats)

  /** An accumulator's fields as a value. */
  datatype AccState = AccState(totalKeySize: int, totalValueSize: int, totalObjectSize: int,
                               lineCount: int, mapKeyAgg: map<string, KeyAgg>)

  ghost function Summary(acc: StatsAccumulator): AccState
    reads acc
  {
    AccState(acc.totalKeySize, acc.totalValueSize, acc.totalObjectSize, acc.lineCount, acc.mapKeyAgg)
  }

  /** What `updateStats` does to an accumulator's fields for one record. */
  function Step(s: AccState, r: Record): AccState
  {
    AccState(s.totalKeySize + r.keySize, s.totalValueSize + r.valueSize,
             s.totalObjectSize + r.objectSize, s.lineCount + 1,
             s.mapKeyAgg[r.key := Bump(AggOrZero(s.mapKeyAgg, r.key), r.objectSize)])
  }

  /** The fields of an accumulator fed exactly these records, in order. */
  function StateOf(rs: seq<Record>): AccState
  {
    AccState(KeySizes(rs), ValueSizes(rs), ObjectSizes(rs), |rs|, Aggregate(rs))
  }

  lemma StateOfSnoc(rs: seq<Record>, r: Record)
    ensures StateOf(rs + [r]) == Step(StateOf(rs), r)
  {
    RecordSumsSnoc(rs, r);
    assert (rs + [r])[..|rs|] == rs;
  }

  /** Feeds one record to "All" and to the size class it belongs to. */
  method Route(accAll: StatsAccumulator, accUnder: StatsAccumulator, accOver: StatsAccumulator,
               r: Record)
    requires accAll != accUnder && accAll != accOver && accUnder != accOver
    requires accAll.Valid() && accUnder.Valid() && accOver.Valid()
    modifies accAll, accUnder, accOver
    ensures accAll.Valid() && accUnder.Valid() && accOver.Valid()
    ensures Summary(accAll) == Step(old(Summary(accAll)), r)
    ensures Summary(accUnder) == if r.objectSize <= TWO_KB then Step(old(Summary(accUnder)), r)
                                 else old(Summary(accUnder))
    ensures Summary(accOver) == if r.objectSize <= TWO_KB then old(Summary(accOver))
                                else Step(old(Summary(accOver)), r)
  {
    accAll.UpdateStats(r.key, r.keySize, r.valueSize, r.objectSize);
    if r.objectSize <= TWO_KB {
      accUnder.UpdateStats(r.key, r.keySize, r.valueSize, r.objectSize);
    } else {
      accOver.UpdateStats(r.key, r.keySize, r.valueSize, r.objectSize);
    }
  }

  /** Feeding a record keeps each accumulator equal to the state of its
      own record list. */
  lemma RouteStates(rs: seq<Record>, r: Record)
    ensures StateOf(UnderOf(rs + [r])) ==
            if r.objectSize <= TWO_KB then Step(StateOf(UnderOf(rs)), r) else StateOf(UnderOf(rs))
    ensures StateOf(OverOf(rs + [r])) ==
            if r.objectSize <= TWO_KB then StateOf(OverOf(rs)) else Step(StateOf(OverOf(rs)), r)
    ensures StateOf(rs + [r]) == Step(StateOf(rs), r)
  {
    StateOfSnoc(rs, r);
    assert (rs + [r])[..|rs|] == rs;
    if r.objectSize <= TWO_KB {
      StateOfSnoc(UnderOf(rs), r);
      assert OverOf(rs + [r]) == OverOf(rs) + [];
      assert OverOf(rs + [r]) == OverOf(rs);
      assert UnderOf(rs + [r]) == UnderOf(rs) + [r];
    } else {
      StateOfSnoc(OverOf(rs), r);
      assert UnderOf(rs + [r]) == UnderOf(rs) + [];
      assert UnderOf(rs + [r]) == UnderOf(rs);
      assert OverOf(rs + [r]) == OverOf(rs) + [r];
    }
  }

  lemma DataRecordsStep(data: seq<string>, i: nat, first: LineOutcome)
    requires i < |data|
    ensures DataRecords(data[..i + 1], first) == Then(DataRecords(data[..i], first), DataLine(data[i]))
  {
    assert data[..i + 1][..i] == data[..i];
  }

  /** An aborted run stays aborted whatever lines follow. */
  lemma {:induction false} DataRecordsAborted(lines: seq<string>, j: nat, first: LineOutcome)
    requires j <= |lines| && DataRecords(lines[..j], first) == None
    ensures DataRecords(lines, first) == None
    decreases |lines|
  {
    if j < |lines| {
      var init := lines[..|lines| - 1];
      assert init[..j] == lines[..j];
      DataRecordsAborted(init, j, first);
    } else {
      assert lines[..j] == lines;
    }
  }

  /** The three accumulators are distinct and hold the states of the
      records fed so far: all of them, those of at most 2 KB, the rest. */
  ghost predicate Tracks(accAll: StatsAccumulator, accUnder: StatsAccumulator,
                         accOver: StatsAccumulator, rs: seq<Record>)
    reads accAll, accUnder, accOver
  {
    accAll != accUnder && accAll != accOver && accUnder != accOver
    && Summary(accAll) == StateOf(rs)
    && Summary(accUnder) == StateOf(UnderOf(rs))
    && Summary(accOver) == StateOf(OverOf(rs))
  }

  /** An accumulator holding the state of some records is valid. */
  lemma StateOfValid(acc: StatsAccumulator, rs: seq<Record>)
    requires Summary(acc) == StateOf(rs)
    ensures acc.Valid()
  {
    AggregateSums(rs);
  }

  /** One line's outcome applied to the accumulators: a taken record is
      routed, a skipped line changes nothing. */
  method Feed(accAll: StatsAccumulator, accUnder: StatsAccumulator, accOver: StatsAccumulator,
              o: LineOutcome, ghost rs: seq<Record>) returns (ghost rs': seq<Record>)
    requires !o.Abort? && Tracks(accAll, accUnder, accOver, rs)
    modifies accAll, accUnder, accOver
    ensures Then(Some(rs), o) == Some(rs') && Tracks(accAll, accUnder, accOver, rs')
  {
    rs' := rs;
    if o.Take? {
      StateOfValid(accAll, rs);
      StateOfValid(accUnder, UnderOf(rs));
      StateOfValid(accOver, OverOf(rs));
      Route(accAll, accUnder, accOver, o.record);
      RouteStates(rs, o.record);
      rs' := rs + [o.record];
    }
  }

  method Finish(accAll: StatsAccumulator, accUnder: StatsAccumulator, accOver: StatsAccumulator)
    returns (report: Report)
    ensures report == Report(StatsFrom(Summary(accUnder)), StatsFrom(Summary(accOver)),
                             StatsFrom(Summary(accAll)))
  {
    var statAll := accAll.ComputeStats();
    var statUnder := accUnder.ComputeStats();
    var statOver := accOver.ComputeStats();
    report := Report(statUnder, statOver, statAll);
  }

  /** The integer statistics of an accumulator state. */
  ghost function StatsFrom(s: AccState): Stats
  {
    if s.lineCount == 0 then Stats(0, 0) else Stats(s.totalObjectSize, SumOver(s.mapKeyAgg, AvgOf))
  }

  lemma StatsFromStateOf(rs: seq<Record>)
    ensures StatsFrom(StateOf(rs)) == StatsOf(rs)
  {
  }

  /** One data line of the read loop: its outcome is fed to the
      accumulators unless a conversion aborts the run. */
  method FeedLine(accAll: StatsAccumulator, accUnder: StatsAccumulator, accOver: StatsAccumulator,
                  data: seq<string>, i: nat, first: LineOutcome, ghost rs: seq<Record>)
    returns (ok: bool, ghost rs': seq<Record>)
    requires i < |data| && DataRecords(data[..i], first) == Some(rs) && Tracks(accAll, accUnder, accOver, rs)
    modifies accAll, accUnder, accOver
    ensures ok <==> DataRecords(data[..i + 1], first).Some?
    ensures ok ==> DataRecords(data[..i + 1], first) == Some(rs') && Tracks(accAll, accUnder, accOver, rs')
  {
    var o := DataLine(data[i]);
    DataRecordsStep(data, i, first);
    if o.Abort? {
      return false, rs;
    }
    rs' := Feed(accAll, accUnder, accOver, o, rs);
    ok := true;
  }

  /** The read loop of `main` over the lines after the first: every line's
      outcome is fed to the accumulators until a conversion aborts the run. */
  method FeedLines(accAll: StatsAccumulator, accUnder: StatsAccumulator, accOver: StatsAccumulator,
                   data: seq<string>, first: LineOutcome, ghost rs0: seq<Record>)
    returns (ok: bool, ghost rs: seq<Record>)
    requires DataRecords([], first) == Some(rs0) && Tracks(accAll, accUnder, accOver, rs0)
    modifies accAll, accUnder, accOver
    ensures ok <==> DataRecords(data, first).Some?
    ensures ok ==> DataRecords(data, first) == Some(rs) && Tracks(accAll, accUnder, accOver, rs)
  {
    rs := rs0;
    assert data[..0] == [];
    var i := 0;
    while i < |data|
      invariant 0 <= i <= |data|
      invariant DataRecords(data[..i], first) == Some(rs) && Tracks(accAll, accUnder, accOver, rs)
    {
      var lineOk;
      lineOk, rs := FeedLine(accAll, accUnder, accOver, data, i, first, rs);
      if !lineOk {
        DataRecordsAborted(data, i + 1, first);
        return false, rs;
      }
      i := i + 1;
    }
    assert data[..i] == data;
    ok := true;
  }

  /** `main` over the lines of the trace file: None when a conversion
      aborts the run, otherwise the reports for "Under 2KB", "Over 2KB" and
      "All", in that order. */
  method TraceInfoMain(lines: seq<string>) returns (report: Option<Report>)
    ensures report.None? <==> TraceRecords(lines).None?
    ensures report.Some? ==>
              var rs := TraceRecords(lines).value;
              report.value == Report(StatsOf(UnderOf(rs)), StatsOf(OverOf(rs)), StatsOf(rs))
  {
    var accAll := new StatsAccumulator();
    var accUnder := new StatsAccumulator();
    var accOver := new StatsAccumulator();
    if lines == [] {
      var r := Finish(accAll, accUnder, accOver);
      return Some(r);
    }
    var first := FirstLine(lines[0]);
    if first.Abort? {
      DataRecordsAborted(lines[1..], 0, first);
      return None;
    }
    ghost var rs := Feed(accAll, accUnder, accOver, first, []);
    var ok;
    ok, rs := FeedLines(accAll, accUnder, accOver, lines[1..], first, rs);
    if !ok {
      return None;
    }
    var r := Finish(accAll, accUnder, accOver);
    StatsFromStateOf(rs);
    StatsFromStateOf(UnderOf(rs));
    StatsFromStateOf(OverOf(rs));
    report := Some(r);
  }
}
