/** Fixed-size windows over a sequence and the "one representative per
    window" sampling that the merger, the sampler and the splitter share:
    consecutive runs of n elements, the last run possibly shorter. */
module Windowing {
  import opened Common

  /** Consecutive windows of `n` elements; the last one holds the remainder
      and is never empty. */
  function Windows<T>(s: seq<T>, n: nat): (ws: seq<seq<T>>)
    requires n > 0
    decreases |s|
  {
    if s == [] then []
    else if |s| <= n then [s]
    else [s[..n]] + Windows(s[n..], n)
  }

  /** All windows glued back together. */
  function Flatten<T>(ws: seq<seq<T>>): seq<T>
  {
    if ws == [] then [] else ws[0] + Flatten(ws[1..])
  }

  lemma {:induction false} FlattenSnoc<T>(ws: seq<seq<T>>, w: seq<T>)
    ensures Flatten(ws + [w]) == Flatten(ws) + w
    decreases |ws|
  {
    if ws == [] {
      assert [] + [w] == [w];
      assert [w][1..] == [];
    } else {
      assert (ws + [w])[1..] == ws[1..] + [w];
      FlattenSnoc(ws[1..], w);
    }
  }

  /** `reps` takes exactly one element out of each window, in window order. */
  ghost predicate IsSampleOf<T>(reps: seq<T>, ws: seq<seq<T>>)
  {
    |reps| == |ws| && forall i :: 0 <= i < |reps| ==> reps[i] in ws[i]
  }

  /** `a` is obtained from `b` by deleting elements: relative order is kept. */
  ghost predicate IsSubsequence<T>(a: seq<T>, b: seq<T>)
    decreases |b|
  {
    if a == [] then true
    else if b == [] then false
    else (a[0] == b[0] && IsSubsequence(a[1..], b[1..])) || IsSubsequence(a, b[1..])
  }

  /** The windows partition the sequence: there are ceil(|s| / n) of them,
      each holds between 1 and n elements, all but the last hold exactly n,
      and together they are `s` in order. */
  lemma {:induction false} WindowsShape<T>(s: seq<T>, n: nat)
    requires n > 0
    ensures |Windows(s, n)| == CeilDiv(|s|, n)
    ensures forall i :: 0 <= i < |Windows(s, n)| ==> 0 < |Windows(s, n)[i]| <= n
    ensures forall i :: 0 <= i < |Windows(s, n)| - 1 ==> |Windows(s, n)[i]| == n
    ensures Flatten(Windows(s, n)) == s
    decreases |s|
  {
    var ws := Windows(s, n);
    if s == [] {
    } else if |s| <= n {
      CeilDivSmall(|s|, n);
      assert Flatten(ws) == s + Flatten([]);
    } else {
      var rest := s[n..];
      WindowsShape(rest, n);
      assert ws == [s[..n]] + Windows(rest, n);
      assert ws[1..] == Windows(rest, n);
      CeilDivStep(|s|, n);
      assert s == s[..n] + rest;
    }
  }

  /** Element `i` of `s` lies in window `i / n`, at position `i % n`. */
  lemma {:induction false} WindowOfIndex<T>(s: seq<T>, n: nat, i: nat)
    requires n > 0 && i < |s|
    ensures i / n < |Windows(s, n)|
    ensures i % n < |Windows(s, n)[i / n]|
    ensures Windows(s, n)[i / n][i % n] == s[i]
    decreases |s|
  {
    if i < n {
      DivModSmall(i, n);
    } else {
      DivModPlusN(i - n, n);
      WindowOfIndex(s[n..], n, i - n);
    }
  }

  /** Window `i` is the slice of `s` starting at `i * n`, `n` long or cut
      short by the end of `s`. */
  lemma {:induction false} WindowsOffsets<T>(s: seq<T>, n: nat, i: nat)
    requires n > 0 && i < |Windows(s, n)|
    ensures i * n < |s|
    ensures Windows(s, n)[i] == s[i * n .. if i * n + n <= |s| then i * n + n else |s|]
    decreases |s|
  {
    if i > 0 {
      assert |s| > n;
      var rest := s[n..];
      assert Windows(s, n)[i] == Windows(rest, n)[i - 1];
      WindowsOffsets(rest, n, i - 1);
      assert (i - 1) * n + n == i * n;
    }
  }

  /** Appending one more window's worth of elements after a whole number of
      full windows adds exactly that window. */
  lemma {:induction false} WindowsSnoc<T>(done: seq<T>, w: seq<T>, n: nat)
    requires n > 0 && |done| % n == 0 && 0 < |w| <= n
    ensures Windows(done + w, n) == Windows(done, n) + [w]
    decreases |done|
  {
    if done == [] {
      assert done + w == w;
    } else {
      if |done| < n {
        DivModSmall(|done|, n);
      }
      DivModPlusN(|done| - n, n);
      var s := done + w;
      assert s[..n] == done[..n];
      assert s[n..] == done[n..] + w;
      WindowsSnoc(done[n..], w, n);
    }
  }

  /** Picking one element of the next window extends a sample; a full
      window leaves a whole number of windows behind. */
  lemma SampleSnoc<T>(reps: seq<T>, done: seq<T>, w: seq<T>, pick: T, n: nat)
    requires n > 0 && |done| % n == 0 && 0 < |w| <= n
    requires IsSampleOf(reps, Windows(done, n)) && pick in w
    ensures IsSampleOf(reps + [pick], Windows(done + w, n))
    ensures |w| == n ==> |done + w| % n == 0
  {
    WindowsSnoc(done, w, n);
    var ws := Windows(done + w, n);
    assert ws[|reps|] == w;
    if |w| == n {
      DivModPlusN(|done|, n);
    }
  }

  lemma {:induction false} SubsequenceExtend<T>(a: seq<T>, p: seq<T>, c: seq<T>)
    requires IsSubsequence(a, c)
    ensures IsSubsequence(a, p + c)
    decreases |p|
  {
    if p != [] && a != [] {
      var b := p + c;
      SubsequenceExtend(a, p[1..], c);
      assert b[1..] == p[1..] + c;
      assert IsSubsequence(a, b[1..]);
      assert b != [];
    } else if p == [] {
      assert p + c == c;
    }
  }

  lemma SubsequenceCons<T>(x: T, a: seq<T>, b: seq<T>, k: nat, c: seq<T>)
    requires k < |b| && b[k] == x && IsSubsequence(a, c)
    ensures IsSubsequence([x] + a, b + c)
  {
    var tail := b[k + 1..] + c;
    SubsequenceExtend(a, b[k + 1..], c);
    assert ([x] + a)[1..] == a;
    assert IsSubsequence([x] + a, [x] + tail) by {
      assert ([x] + tail)[1..] == tail;
    }
    SubsequenceExtend([x] + a, b[..k], [x] + tail);
    assert b[..k] + ([x] + tail) == b + c;
  }

  /** One representative per window, taken in window order, is a
      subsequence of the input: sampling keeps relative order. */
  lemma {:induction false} SampleIsSubsequence<T>(reps: seq<T>, s: seq<T>, n: nat)
    requires n > 0 && IsSampleOf(reps, Windows(s, n))
    ensures IsSubsequence(reps, s)
    decreases |s|
  {
    if s != [] {
      var ws := Windows(s, n);
      var w0 := if |s| <= n then s else s[..n];
      var rest := if |s| <= n then [] else s[n..];
      assert ws[0] == w0;
      assert s == w0 + rest;
      assert Windows(rest, n) == ws[1..];
      assert IsSampleOf(reps[1..], Windows(rest, n));
      SampleIsSubsequence(reps[1..], rest, n);
      var k :| 0 <= k < |w0| && w0[k] == reps[0];
      SubsequenceCons(reps[0], reps[1..], w0, k, rest);
      assert [reps[0]] + reps[1..] == reps;
    }
  }

  /** A subsequence stays one when an element is appended to the larger
      sequence, and (if `take`) to both. */
  lemma {:induction false} SubsequenceExtendRight<T>(a: seq<T>, b: seq<T>, x: T, take: bool)
    requires IsSubsequence(a, b)
    ensures IsSubsequence(if take then a + [x] else a, b + [x])
    decreases |b|
  {
    var a' := if take then a + [x] else a;
    if a == [] {
      if take {
        assert IsSubsequence([x], [x]) by {
          assert [x][1..] == [];
        }
        SubsequenceExtend([x], b, [x]);
        assert a' == [x];
      }
    } else {
      assert b != [];
      assert (b + [x])[1..] == b[1..] + [x];
      assert a'[0] == a[0];
      if a[0] == b[0] && IsSubsequence(a[1..], b[1..]) {
        SubsequenceExtendRight(a[1..], b[1..], x, take);
        assert a'[1..] == if take then a[1..] + [x] else a[1..];
      } else {
        SubsequenceExtendRight(a, b[1..], x, take);
      }
    }
  }

  lemma {:induction false} SubsequenceMembers<T>(a: seq<T>, b: seq<T>)
    requires IsSubsequence(a, b)
    ensures forall x :: x in a ==> x in b
    decreases |b|
  {
    if a != [] && b != [] {
      if a[0] == b[0] && IsSubsequence(a[1..], b[1..]) {
        SubsequenceMembers(a[1..], b[1..]);
        assert a == [a[0]] + a[1..];
      } else {
        SubsequenceMembers(a, b[1..]);
      }
    }
  }

  /** With windows of one element nothing is sampled away: the representatives
      are the whole sequence. */
  lemma {:induction false} WindowOfOneKeepsAll<T>(reps: seq<T>, s: seq<T>)
    requires IsSampleOf(reps, Windows(s, 1))
    ensures reps == s
    decreases |s|
  {
    if |s| == 1 {
      assert reps[0] in s;
      assert reps == [reps[0]];
    } else if s != [] {
      assert Windows(s, 1) == [s[..1]] + Windows(s[1..], 1);
      assert reps[0] in s[..1];
      assert IsSampleOf(reps[1..], Windows(s[1..], 1));
      WindowOfOneKeepsAll(reps[1..], s[1..]);
      assert reps == [reps[0]] + reps[1..];
      assert s == s[..1] + s[1..];
    }
  }
}
