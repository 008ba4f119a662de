/** The power-of-two object-size histogram (obj_size_bin.cpp).

    The number of bins is found by doubling 64 until it passes 512 KiB.
    Every row of every input file adds one to the slot
    `min(ceil_log2(size) - 6, numBins)`, where the subtraction is on
    32-bit unsigned integers: sizes of 32 bytes or less wrap around and,
    like sizes above the last bin, land in the extra slot `numBins`. */
module ObjSizeBin {
  import opened Common
  import opened Windowing

  /** A size column as the tool reads it: a 32-bit unsigned value. A size of
      zero is excluded, since `ceil_log2(0)` is undefined in the source
      (`__builtin_clz(0)`). */
  type ObjSize = n: nat | 0 < n < 0x1_0000_0000 witness 1

  function Pow2(k: nat): (p: nat)
    ensures p >= 1
  {
    if k == 0 then 1 else 2 * Pow2(k - 1)
  }

  lemma {:induction false} Pow2Mono(j: nat, k: nat)
    requires j <= k
    ensures Pow2(j) <= Pow2(k)
    decreases k
  {
    if j < k {
      Pow2Mono(j, k - 1);
    }
  }

  lemma {:induction false} Pow2Add(j: nat, k: nat)
    ensures Pow2(j + k) == Pow2(j) * Pow2(k)
    decreases k
  {
    if k > 0 {
      Pow2Add(j, k - 1);
    }
  }

  lemma Pow2Values()
    ensures Pow2(5) == 32 && Pow2(6) == 64 && Pow2(13) == 8192
  {
    Pow2Add(6, 7);
  }

  /** 2^32 is the modulus of the tool's uint32 arithmetic. */
  lemma Pow2Of32()
    ensures Pow2(32) == U32
  {
    Pow2Of16();
    Pow2Add(16, 16);
  }

  lemma Pow2Of16()
    ensures Pow2(16) == 65536
  {
    assert Pow2(4) == 16;
    Pow2Add(4, 4);
    Pow2Add(8, 8);
  }

  /** `a - b` on uint32: wraps around by 2^32 when b exceeds a. */
  function Sub32(a: nat, b: nat): (d: nat)
    requires a < U32 && b < U32
    ensures d < U32
    ensures d == (a - b) % U32
  {
    if a >= b then
      DivModSmall(a - b, U32);
      a - b
    else
      DivModUnique(a - b, U32, -1, a - b + U32);
      a - b + U32
  }

  // ---------------------------------------------------------------------------
  // ceil_log2
  // ---------------------------------------------------------------------------

  /** `__builtin_clz` at width `w`: the number of zero bits above the
      highest set bit of `v`, scanning from bit w-1 down. */
  function LeadingZeros(v: nat, w: nat): (z: nat)
    requires 0 < v < Pow2(w)
    ensures z < w
    ensures Pow2(w - 1 - z) <= v < Pow2(w - z)
  {
    if v >= Pow2(w - 1) then 0
    else 1 + LeadingZeros(v, w - 1)
  }

  /** The `ceil_log2` lambda: `31 - clz(v)` is the position of the highest
      set bit; one more unless `v` is exactly that power of two. */
  function CeilLog2(v: ObjSize): (k: nat)
    ensures k <= 32
    ensures v <= Pow2(k)
    ensures k == 0 || Pow2(k - 1) < v
  {
    Pow2Of32();
    var floorLog := 31 - LeadingZeros(v, 32);
    if v == Pow2(floorLog) then floorLog
    else
      assert Pow2(floorLog + 1) == 2 * Pow2(floorLog);
      floorLog + 1
  }

  /** `ceil_log2(v)` is the least k with 2^k >= v. */
  lemma {:induction false} CeilLog2Least(v: ObjSize, k: nat)
    requires v <= Pow2(k)
    ensures CeilLog2(v) <= k
  {
    var c := CeilLog2(v);
    if c > k {
      Pow2Mono(k, c - 1);
    }
  }

  /** ceil_log2(v) is k exactly when v lies in (2^(k-1), 2^k]. */
  lemma CeilLog2Exact(v: ObjSize, k: nat)
    requires 0 < k
    ensures CeilLog2(v) == k <==> Pow2(k - 1) < v <= Pow2(k)
  {
    var c := CeilLog2(v);
    if Pow2(k - 1) < v <= Pow2(k) {
      CeilLog2Least(v, k);
      if c < k {
        Pow2Mono(c, k - 1);
      }
    }
  }

  /** The two checks the tool asserts before reading any file. */
  lemma CeilLog2Samples()
    ensures CeilLog2(64) == 6 && CeilLog2(62) == 6
  {
    Pow2Values();
    CeilLog2Exact(64, 6);
    CeilLog2Exact(62, 6);
  }

  /** A power of two is its own ceil_log2. */
  lemma CeilLog2OfPow2(k: nat)
    requires Pow2(k) < U32
    ensures CeilLog2(Pow2(k)) == k
  {
    var v: ObjSize := Pow2(k);
    if k == 0 {
      CeilLog2Least(v, 0);
    } else {
      CeilLog2Exact(v, k);
    }
  }

  // ---------------------------------------------------------------------------
  // Number of bins
  // ---------------------------------------------------------------------------

  /** The doubling loop: starting at 64, `startByte` (a uint32) doubles
      until it exceeds 512 KiB; the number of doublings is the number of
      bins. The bound is reached long before the 32-bit product could wrap. */
  method CountBins() returns (numBins: nat)
    ensures numBins == 14
    ensures 64 * Pow2(numBins - 1) <= 512 * 1024 < 64 * Pow2(numBins)
  {
    numBins := 0;
    var startByte: nat := 64;
    var endByte: nat := 512 * 1024;
    Pow2Values();
    while startByte <= endByte
      invariant numBins <= 14
      invariant startByte == 64 * Pow2(numBins)
      invariant numBins < 14 <==> startByte <= endByte
      decreases 14 - numBins
    {
      assert startByte * 2 < U32;
      startByte := (startByte * 2) % U32;
      numBins := numBins + 1;
      if numBins < 14 {
        Pow2Mono(numBins, 13);
      } else {
        Pow2Add(13, 1);
      }
    }
    assert Pow2(14) == 2 * Pow2(13);
  }

  // ---------------------------------------------------------------------------
  // Bin index
  // ---------------------------------------------------------------------------

  /** `min(ceil_log2(size) - 6, numBins)` with the subtraction in uint32. */
  function BinIndex(size: ObjSize, numBins: nat): (b: nat)
    ensures b <= numBins
  {
    var binIdx := Sub32(CeilLog2(size), 6);
    if binIdx < numBins then binIdx else numBins
  }

  /** Below `numBins` the uint32 subtraction does not wrap: slot i is the
      bin of the sizes whose ceil_log2 is i + 6. */
  lemma BinIndexOfLog(size: ObjSize, numBins: nat, i: nat)
    requires i < numBins < U32 - 6
    ensures BinIndex(size, numBins) == i <==> CeilLog2(size) == i + 6
  {
  }

  /** Slot i below `numBins` counts exactly the sizes in (2^(i+5), 2^(i+6)]. */
  lemma BinIndexSlot(size: ObjSize, numBins: nat, i: nat)
    requires i < numBins < U32 - 6
    ensures BinIndex(size, numBins) == i <==> Pow2(i + 5) < size <= Pow2(i + 6)
  {
    BinIndexOfLog(size, numBins, i);
    CeilLog2Exact(size, i + 6);
  }

  /** A size of at most 32 bytes wraps the uint32 subtraction and is clamped
      into the extra slot. */
  lemma BinIndexSmall(size: ObjSize, numBins: nat)
    requires size <= 32 && numBins < U32 - 6
    ensures BinIndex(size, numBins) == numBins
  {
    Pow2Values();
    CeilLog2Least(size, 5);
  }

  /** A size above the top bin, 2^(numBins+5), is clamped into the extra
      slot. */
  lemma BinIndexLarge(size: ObjSize, numBins: nat)
    requires size > Pow2(numBins + 5)
    ensures BinIndex(size, numBins) == numBins
  {
    var c := CeilLog2(size);
    if c < numBins + 6 {
      Pow2Mono(c, numBins + 5);
    }
  }

  // ---------------------------------------------------------------------------
  // Histogram
  // ---------------------------------------------------------------------------

  /** The bin of every size, in order. */
  function BinsOf(sizes: seq<ObjSize>, numBins: nat): (bs: seq<nat>)
    ensures |bs| == |sizes|
    ensures forall j :: 0 <= j < |sizes| ==> bs[j] == BinIndex(sizes[j], numBins)
  {
    if sizes == [] then []
    else BinsOf(sizes[..|sizes| - 1], numBins) + [BinIndex(sizes[|sizes| - 1], numBins)]
  }

  /** `numObjs` after reading these sizes: numBins + 1 slots, starting at
      zero, each row adding one to its slot. */
  function Histogram(sizes: seq<ObjSize>, numBins: nat): (h: seq<nat>)
    ensures |h| == numBins + 1
  {
    if sizes == [] then seq(numBins + 1, _ => 0)
    else
      var h := Histogram(sizes[..|sizes| - 1], numBins);
      var b := BinIndex(sizes[|sizes| - 1], numBins);
      h[b := h[b] + 1]
  }

  lemma HistogramSnoc(sizes: seq<ObjSize>, size: ObjSize, numBins: nat)
    ensures var h := Histogram(sizes, numBins);
            var b := BinIndex(size, numBins);
            Histogram(sizes + [size], numBins) == h[b := h[b] + 1]
  {
    assert (sizes + [size])[..|sizes|] == sizes;
  }

  /** Slot i holds the number of rows whose bin is i. */
  lemma {:induction false} HistogramCounts(sizes: seq<ObjSize>, numBins: nat, i: nat)
    requires i <= numBins
    ensures Histogram(sizes, numBins)[i] == multiset(BinsOf(sizes, numBins))[i]
  {
    if sizes != [] {
      var init := sizes[..|sizes| - 1];
      HistogramCounts(init, numBins, i);
      assert BinsOf(sizes, numBins) == BinsOf(init, numBins) + [BinIndex(sizes[|sizes| - 1], numBins)];
    }
  }

  lemma {:induction false} SumBump(h: seq<int>, b: nat)
    requires b < |h|
    ensures Sum(h[b := h[b] + 1]) == Sum(h) + 1
    decreases |h|
  {
    var n := |h| - 1;
    assert h[b := h[b] + 1][..n] == if b < n then h[..n][b := h[b] + 1] else h[..n];
    if b < n {
      SumBump(h[..n], b);
    }
  }

  lemma {:induction false} SumZeros(k: nat)
    ensures Sum(seq(k, _ => 0)) == 0
  {
    if k > 0 {
      assert seq(k, _ => 0)[..k - 1] == seq(k - 1, _ => 0);
      SumZeros(k - 1);
    }
  }

  /** Every row lands in exactly one slot: the slots add up to the number
      of rows read. */
  lemma {:induction false} HistogramTotal(sizes: seq<ObjSize>, numBins: nat)
    ensures Sum(Histogram(sizes, numBins)) == |sizes|
  {
    if sizes == [] {
      SumZeros(numBins + 1);
    } else {
      var init := sizes[..|sizes| - 1];
      HistogramTotal(init, numBins);
      var h, b := Histogram(init, numBins), BinIndex(sizes[|sizes| - 1], numBins);
      assert Histogram(sizes, numBins) == h[b := h[b] + 1];
      SumBump(h, b);
    }
  }

  lemma AppendNext<T>(done: seq<T>, s: seq<T>, r: nat)
    requires r < |s|
    ensures (done + s[..r]) + [s[r]] == done + s[..r + 1]
  {
    assert s[..r + 1] == s[..r] + [s[r]];
  }

  lemma CountStep(done: seq<ObjSize>, file: seq<ObjSize>, r: nat, numBins: nat, h: seq<nat>)
    requires r < |file| && h == Histogram(done + file[..r], numBins)
    ensures var b := BinIndex(file[r], numBins);
            h[b := h[b] + 1] == Histogram(done + file[..r + 1], numBins)
  {
    HistogramSnoc(done + file[..r], file[r], numBins);
    AppendNext(done, file, r);
  }

  /** The row loop of `main` for one file: every row adds one to its
      slot of `numObjs`. */
  method CountFile(numObjs: array<nat>, ghost done: seq<ObjSize>, file: seq<ObjSize>, numBins: nat)
    requires numObjs[..] == Histogram(done, numBins)
    modifies numObjs
    ensures numObjs[..] == Histogram(done + file, numBins)
  {
    var r := 0;
    assert done + file[..0] == done;
    while r < |file|
      invariant 0 <= r <= |file|
      invariant numObjs.Length == numBins + 1
      invariant forall j :: 0 <= j < numObjs.Length ==> numObjs[j] == Histogram(done + file[..r], numBins)[j]
    {
      var b := BinIndex(file[r], numBins);
      CountStep(done, file, r, numBins, Histogram(done + file[..r], numBins));
      numObjs[b] := numObjs[b] + 1;
      r := r + 1;
    }
    assert file[..r] == file;
    assert numObjs[..] == Histogram(done + file, numBins);
  }

  lemma FlattenPrefixSnoc<T>(files: seq<seq<T>>, f: nat)
    requires f < |files|
    ensures Flatten(files[..f + 1]) == Flatten(files[..f]) + files[f]
  {
    assert files[..f + 1] == files[..f] + [files[f]];
    FlattenSnoc(files[..f], files[f]);
  }

  /** The file loop of `main`: the counts over every row of every file,
      in a fresh array of numBins + 1 zeroes. */
  method BuildHistogram(files: seq<seq<ObjSize>>, numBins: nat) returns (numObjs: array<nat>)
    ensures fresh(numObjs)
    ensures numObjs[..] == Histogram(Flatten(files), numBins)
  {
    numObjs := new nat[numBins + 1](_ => 0);
    assert numObjs[..] == Histogram([], numBins);
    ghost var read: seq<ObjSize> := [];
    assert Flatten(files[..0]) == read;
    var f := 0;
    while f < |files|
      invariant 0 <= f <= |files|
      invariant read == Flatten(files[..f])
      invariant numObjs[..] == Histogram(read, numBins)
    {
      CountFile(numObjs, read, files[f], numBins);
      FlattenPrefixSnoc(files, f);
      read := read + files[f];
      f := f + 1;
    }
    assert files[..f] == files;
  }
}
