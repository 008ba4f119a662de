/** Text and arithmetic helpers shared by the trace tools: the optional value,
    comma tokenisation with std::getline semantics, joining, the digits-only
    number parser that stands for std::stoull / std::stoul, decimal rendering,
    whitespace stripping and ceiling division. */
module Common {

  datatype Option<T> = None | Some(value: T)

  datatype Result<T, E> = Success(value: T) | Failure(error: E)

  /** ceil(k / n) for a positive window size n. */
  function CeilDiv(k: nat, n: nat): (r: nat)
    requires n > 0
  {
    (k + n - 1) / n
  }

  /** Euclidean division is determined by quotient and remainder. */
  lemma DivModUnique(x: int, n: int, q: int, r: int)
    requires n > 0 && x == q * n + r && 0 <= r < n
    ensures x / n == q && x % n == r
  {
    var q', r' := x / n, x % n;
    assert x == q' * n + r' && 0 <= r' < n;
    assert (q - q') * n == r' - r by {
      assert (q - q') * n == q * n - q' * n;
    }
    if q > q' {
      MulAtLeast(q - q', n);
    } else if q < q' {
      MulAtLeast(q' - q, n);
    }
  }

  lemma {:induction false} MulAtLeast(d: int, n: int)
    requires d >= 1 && n > 0
    ensures d * n >= n
    decreases d
  {
    if d > 1 {
      MulAtLeast(d - 1, n);
      assert d * n == (d - 1) * n + n;
    }
  }

  lemma DivModPlusN(x: nat, n: nat)
    requires n > 0
    ensures (x + n) / n == x / n + 1 && (x + n) % n == x % n
  {
    assert x + n == (x / n + 1) * n + x % n;
    DivModUnique(x + n, n, x / n + 1, x % n);
  }

  lemma DivModSmall(x: nat, n: nat)
    requires x < n
    ensures x / n == 0 && x % n == x
  {
    DivModUnique(x, n, 0, x);
  }

  /** Dropping one full window lowers the window count by one. */
  lemma CeilDivStep(k: nat, n: nat)
    requires 0 < n <= k
    ensures CeilDiv(k, n) == CeilDiv(k - n, n) + 1
  {
    DivModPlusN(k - n + n - 1, n);
  }

  lemma CeilDivSmall(k: nat, n: nat)
    requires 0 < k <= n
    ensures CeilDiv(k, n) == 1
  {
    DivModUnique(k + n - 1, n, 1, k - 1);
  }

  function Sum(s: seq<int>): int
  {
    if s == [] then 0 else Sum(s[..|s| - 1]) + s[|s| - 1]
  }

  lemma SumAppend(a: seq<int>, b: seq<int>)
    ensures Sum(a + b) == Sum(a) + Sum(b)
    decreases |b|
  {
    if b == [] {
      assert a + b == a;
    } else {
      assert (a + b)[..|a + b| - 1] == a + b[..|b| - 1];
      SumAppend(a, b[..|b| - 1]);
    }
  }

  /** `s.startswith(prefix)`, compared one character at a time. */
  predicate StartsWith(s: string, prefix: string)
    ensures StartsWith(s, prefix) ==> |prefix| <= |s|
  {
    prefix == [] || (s != [] && s[0] == prefix[0] && StartsWith(s[1..], prefix[1..]))
  }

  /** A prefix is the first |prefix| characters. */
  lemma {:induction false} StartsWithIff(s: string, prefix: string)
    ensures StartsWith(s, prefix) <==> |prefix| <= |s| && s[..|prefix|] == prefix
  {
    if prefix != [] && s != [] {
      StartsWithIff(s[1..], prefix[1..]);
      if |prefix| <= |s| {
        assert s[..|prefix|] == [s[0]] + s[1..][..|prefix| - 1];
        assert prefix == [prefix[0]] + prefix[1..];
      }
    }
  }

  // ---------------------------------------------------------------------------
  // Digits
  // ---------------------------------------------------------------------------

  predicate IsDigit(c: char)
  {
    '0' <= c <= '9'
  }

  predicate AllDigits(s: string)
  {
    forall i :: 0 <= i < |s| ==> IsDigit(s[i])
  }

  function DigitChar(d: nat): (c: char)
    requires d < 10
    ensures IsDigit(c)
  {
    ('0' as int + d) as char
  }

  function DigitsValue(s: string): nat
    requires AllDigits(s)
  {
    if s == [] then 0
    else 10 * DigitsValue(s[..|s| - 1]) + (s[|s| - 1] as int - '0' as int)
  }

  /** A numeric field as the trace tools read it: a non-empty run of decimal
      digits and nothing else; anything else is a conversion failure. */
  function ParseNat(s: string): (r: Option<nat>)
    ensures r.Some? <==> |s| > 0 && AllDigits(s)
  {
    if |s| > 0 && AllDigits(s) then Some(DigitsValue(s)) else None
  }

  /** Decimal rendering of a natural number, as `<<` on an unsigned integer. */
  function NatToString(n: nat): (s: string)
    ensures |s| > 0 && AllDigits(s)
  {
    if n < 10 then [DigitChar(n)] else NatToString(n / 10) + [DigitChar(n % 10)]
  }

  lemma {:induction false} DigitsValueOfNatToString(n: nat)
    ensures DigitsValue(NatToString(n)) == n
  {
    var s := NatToString(n);
    if n < 10 {
      assert s[..0] == [];
    } else {
      DigitsValueOfNatToString(n / 10);
      assert s[..|s| - 1] == NatToString(n / 10);
    }
  }

  /** Reading back a rendered number gives the number. */
  lemma ParseNatToString(n: nat)
    ensures ParseNat(NatToString(n)) == Some(n)
  {
    DigitsValueOfNatToString(n);
  }

  /** The longest run of decimal digits at the start of `s`. */
  function DigitPrefix(s: string): (d: string)
    ensures |d| <= |s| && d == s[..|d|] && AllDigits(d)
    ensures |d| < |s| ==> !IsDigit(s[|d|])
  {
    if s != [] && IsDigit(s[0]) then [s[0]] + DigitPrefix(s[1..]) else []
  }

  /** What the C `strto*` family reads in base 10: leading whitespace, an
      optional sign, then at least one digit; the digits stop at the first
      other character, which is ignored with everything after it. The result
      is the sign (true for '-') and the magnitude. */
  function ScanInteger(s: string): (r: Option<(bool, nat)>)
    ensures r.Some? <==> |DigitPrefix(Unsigned(TrimLeft(s, IsSpace)))| > 0
  {
    var t := TrimLeft(s, IsSpace);
    var ds := DigitPrefix(Unsigned(t));
    if ds == [] then None else Some((t != [] && t[0] == '-', DigitsValue(ds)))
  }

  /** The text after an optional leading sign. */
  function Unsigned(t: string): (u: string)
    ensures u == t || (t != [] && (t[0] == '+' || t[0] == '-') && u == t[1..])
  {
    if t != [] && (t[0] == '+' || t[0] == '-') then t[1..] else t
  }

  /** The header line of a key trace, the five-column CSV that the
      splitter writes and the statistics and histogram tools read. */
  const HEADER: string := "key,op,size,op_count,key_size"

  const U32: nat := 0x1_0000_0000
  const U64: nat := 0x1_0000_0000_0000_0000

  /** `std::stoull` (and `std::stoul`, whose `unsigned long` is 64 bits wide
      on the platforms the tools target): no digits or a magnitude beyond
      2^64 - 1 throws (None); a '-' sign negates modulo 2^64. */
  function StoULL(s: string): (r: Option<nat>)
    ensures r.Some? ==> r.value < U64
    ensures r.Some? <==> ScanInteger(s).Some? && ScanInteger(s).value.1 < U64
  {
    match ScanInteger(s)
    case None => None
    case Some((neg, v)) =>
      if v >= U64 then None
      else Some(if neg && v > 0 then U64 - v else v)
  }

  /** `std::stoi`: no digits, or a value outside the 32-bit signed range,
      throws (None). */
  function StoI(s: string): (r: Option<int>)
    ensures r.Some? ==> -0x8000_0000 <= r.value < 0x8000_0000
    ensures r.Some? <==>
              ScanInteger(s).Some? &&
              (if ScanInteger(s).value.0 then ScanInteger(s).value.1 <= 0x8000_0000
               else ScanInteger(s).value.1 < 0x8000_0000)
  {
    match ScanInteger(s)
    case None => None
    case Some((neg, v)) =>
      var x: int := if neg then 0 - v else v;
      if x < -0x8000_0000 || x >= 0x8000_0000 then None else Some(x)
  }

  lemma {:induction false} DigitPrefixOfDigits(s: string)
    requires AllDigits(s)
    ensures DigitPrefix(s) == s
    decreases |s|
  {
    if s != [] {
      DigitPrefixOfDigits(s[1..]);
    }
  }

  /** A run of k digits followed by a non-digit is the digit prefix. */
  lemma DigitPrefixExact(s: string, k: nat)
    requires k < |s| && AllDigits(s[..k]) && !IsDigit(s[k])
    ensures |DigitPrefix(s)| == k
  {
  }

  /** A plain run of digits scans as a non-negative number with the digits'
      value. */
  lemma ScanDigits(s: string)
    requires |s| > 0 && AllDigits(s)
    ensures ScanInteger(s) == Some((false, DigitsValue(s)))
  {
    assert IsDigit(s[0]);
    assert TrimLeft(s, IsSpace) == s;
    assert Unsigned(s) == s;
    DigitPrefixOfDigits(s);
  }

  /** On a plain run of digits both conversions agree with the digits'
      value, within their ranges. */
  lemma ConvertDigits(s: string)
    requires |s| > 0 && AllDigits(s)
    ensures DigitsValue(s) < U64 ==> StoULL(s) == Some(DigitsValue(s))
    ensures DigitsValue(s) < 0x8000_0000 ==> StoI(s) == Some(DigitsValue(s))
  {
    ScanDigits(s);
  }

  /** `std::stoi` reads back what `<<` wrote for a value in `int` range. */
  lemma StoIOfNatToString(n: nat)
    requires n < 0x8000_0000
    ensures StoI(NatToString(n)) == Some(n)
  {
    ConvertDigits(NatToString(n));
    DigitsValueOfNatToString(n);
  }

  /** `std::stoull` reads back what `<<` wrote for a 64-bit unsigned value. */
  lemma StoULLOfNatToString(n: nat)
    requires n < U64
    ensures StoULL(NatToString(n)) == Some(n)
  {
    ConvertDigits(NatToString(n));
    DigitsValueOfNatToString(n);
  }

  // ---------------------------------------------------------------------------
  // Tokenising on a delimiter
  // ---------------------------------------------------------------------------

  /** Every piece between delimiters, empty pieces included (one more piece
      than there are delimiters). */
  function SplitAll(s: string, d: char): (r: seq<string>)
    ensures |r| >= 1
  {
    if s == [] then [""]
    else
      var r := SplitAll(s[..|s| - 1], d);
      var c := s[|s| - 1];
      if c == d then r + [""] else r[..|r| - 1] + [r[|r| - 1] + [c]]
  }

  /** The tokens that `while (std::getline(ss, token, d))` produces: the
      pieces between delimiters, except that a final empty piece (the input
      is empty or ends with the delimiter) is not produced. */
  function GetlineSplit(s: string, d: char): (r: seq<string>)
  {
    var all := SplitAll(s, d);
    if all[|all| - 1] == "" then all[..|all| - 1] else all
  }

  /** No piece holds the delimiter. */
  lemma {:induction false} SplitAllPiecesNoDelim(s: string, d: char, i: nat)
    requires i < |SplitAll(s, d)|
    ensures d !in SplitAll(s, d)[i]
  {
    if s != [] {
      var r := SplitAll(s[..|s| - 1], d);
      if s[|s| - 1] == d {
        if i < |r| {
          SplitAllPiecesNoDelim(s[..|s| - 1], d, i);
        }
      } else {
        SplitAllPiecesNoDelim(s[..|s| - 1], d, if i < |r| - 1 then i else |r| - 1);
      }
    }
  }

  /** No token holds the delimiter. */
  lemma GetlineSplitNoDelim(s: string, d: char, i: nat)
    requires i < |GetlineSplit(s, d)|
    ensures d !in GetlineSplit(s, d)[i]
  {
    var all := SplitAll(s, d);
    assert GetlineSplit(s, d)[i] == all[i];
    SplitAllPiecesNoDelim(s, d, i);
  }

  function Join(fields: seq<string>, d: char): (s: string)
  {
    if fields == [] then ""
    else if |fields| == 1 then fields[0]
    else Join(fields[..|fields| - 1], d) + [d] + fields[|fields| - 1]
  }

  /** The lines written for a sequence of items, one per item, in order. */
  function FormatAll<T>(items: seq<T>, fmt: T -> string): (lines: seq<string>)
    ensures |lines| == |items|
    ensures forall i :: 0 <= i < |items| ==> lines[i] == fmt(items[i])
  {
    if items == [] then [] else FormatAll(items[..|items| - 1], fmt) + [fmt(items[|items| - 1])]
  }

  /** Appending an item appends its line. */
  lemma FormatAllSnoc<T>(items: seq<T>, x: T, fmt: T -> string)
    ensures FormatAll(items + [x], fmt) == FormatAll(items, fmt) + [fmt(x)]
  {
    assert (items + [x])[..|items|] == items;
  }

  /** Concatenation of the pieces, with nothing in between. */
  function Concat(pieces: seq<string>): (s: string)
  {
    if pieces == [] then "" else Concat(pieces[..|pieces| - 1]) + pieces[|pieces| - 1]
  }

  /** The string with every occurrence of `d` taken out: every other
      character stays, as often as it occurred; a string without `d` is
      unchanged. */
  function Remove(s: string, d: char): (r: string)
    ensures d !in r
    ensures multiset(r) == multiset(s)[d := 0]
    ensures d !in s ==> r == s
  {
    if s == [] then ""
    else
      assert s == s[..|s| - 1] + [s[|s| - 1]];
      if s[|s| - 1] == d then Remove(s[..|s| - 1], d)
      else Remove(s[..|s| - 1], d) + [s[|s| - 1]]
  }

  /** Removal works piece by piece, so the kept characters stay in order. */
  lemma {:induction false} RemoveAppend(a: string, b: string, d: char)
    ensures Remove(a + b, d) == Remove(a, d) + Remove(b, d)
    decreases |b|
  {
    if b != [] {
      var b' := b[..|b| - 1];
      assert (a + b)[..|a + b| - 1] == a + b';
      assert (a + b)[|a + b| - 1] == b[|b| - 1];
      RemoveAppend(a, b', d);
    } else {
      assert a + b == a;
    }
  }

  lemma {:induction false} SplitAllNoDelim(s: string, d: char)
    requires d !in s
    ensures SplitAll(s, d) == [s]
  {
    if s != [] {
      SplitAllNoDelim(s[..|s| - 1], d);
      assert s[..|s| - 1] + [s[|s| - 1]] == s;
    }
  }

  /** Reading one more character: a delimiter starts a new piece, any
      other character extends the last one. */
  lemma SplitAllSnoc(t: string, c: char, d: char)
    ensures var r := SplitAll(t, d);
            SplitAll(t + [c], d) == if c == d then r + [""] else r[..|r| - 1] + [r[|r| - 1] + [c]]
  {
    assert (t + [c])[..|t|] == t;
  }

  /** Splitting distributes over a delimiter: the pieces of `a d b` are the
      pieces of `a` followed by the pieces of `b`. */
  lemma {:induction false} SplitAllAround(a: string, d: char, b: string)
    ensures SplitAll(a + [d] + b, d) == SplitAll(a, d) + SplitAll(b, d)
    decreases |b|
  {
    if b == [] {
      SplitAllSnoc(a, d, d);
      assert a + [d] + b == a + [d];
    } else {
      var b', c := b[..|b| - 1], b[|b| - 1];
      var t := a + [d] + b';
      assert a + [d] + b == t + [c];
      assert b == b' + [c];
      SplitAllAround(a, d, b');
      SplitAllSnoc(t, c, d);
      SplitAllSnoc(b', c, d);
      ExtendLastPiece(SplitAll(a, d), SplitAll(b', d), c, c == d);
    }
  }

  lemma ExtendLastPiece(A: seq<string>, B: seq<string>, c: char, newPiece: bool)
    requires |B| >= 1
    ensures var R := A + B;
            (if newPiece then R + [""] else R[..|R| - 1] + [R[|R| - 1] + [c]])
            == A + (if newPiece then B + [""] else B[..|B| - 1] + [B[|B| - 1] + [c]])
  {
    var R := A + B;
    if !newPiece {
      assert R[..|R| - 1] == A + B[..|B| - 1];
    }
  }

  /** Splitting what Join built gives the fields back, when no field holds
      the delimiter. */
  lemma {:induction false} SplitAllJoin(fields: seq<string>, d: char)
    requires |fields| >= 1
    requires forall i :: 0 <= i < |fields| ==> d !in fields[i]
    ensures SplitAll(Join(fields, d), d) == fields
  {
    if |fields| == 1 {
      SplitAllNoDelim(fields[0], d);
    } else {
      var init := fields[..|fields| - 1];
      var last := fields[|fields| - 1];
      assert forall i :: 0 <= i < |init| ==> init[i] == fields[i];
      SplitAllJoin(init, d);
      SplitAllAround(Join(init, d), d, last);
      SplitAllNoDelim(last, d);
      assert Join(fields, d) == Join(init, d) + [d] + last;
      assert init + [last] == fields;
    }
  }

  /** Gluing the pieces of a split back together without the delimiter is
      the same as deleting the delimiter. */
  lemma {:induction false} ConcatSplitAll(s: string, d: char)
    ensures Concat(SplitAll(s, d)) == Remove(s, d)
  {
    if s != [] {
      var s' := s[..|s| - 1];
      var c := s[|s| - 1];
      var r := SplitAll(s', d);
      ConcatSplitAll(s', d);
      assert Remove(s, d) == if c == d then Remove(s', d) else Remove(s', d) + [c];
      if c == d {
        assert (r + [""])[..|r|] == r;
      } else {
        var init := r[..|r| - 1];
        assert r == init + [r[|r| - 1]];
        assert (init + [r[|r| - 1] + [c]])[..|init|] == init;
        assert Concat(r) == Concat(init) + r[|r| - 1];
      }
    }
  }

  lemma ConcatAppend(pieces: seq<string>, p: string)
    ensures Concat(pieces + [p]) == Concat(pieces) + p
  {
    assert (pieces + [p])[..|pieces|] == pieces;
  }

  /** Concatenating pieces that avoid a character yields a string that
      avoids it. */
  lemma {:induction false} ConcatAvoids(pieces: seq<string>, d: char)
    requires forall i :: 0 <= i < |pieces| ==> d !in pieces[i]
    ensures d !in Concat(pieces)
    decreases |pieces|
  {
    if pieces != [] {
      ConcatAvoids(pieces[..|pieces| - 1], d);
    }
  }

  // ---------------------------------------------------------------------------
  // Whitespace
  // ---------------------------------------------------------------------------

  /** C's `isspace` in the "C" locale: space, tab, newline, vertical tab,
      form feed and carriage return. */
  predicate IsSpace(c: char)
  {
    c == ' ' || c == '\t' || c == '\n' || c == '\r' || c == 11 as char || c == 12 as char
  }

  /** Python's `str.isspace()`, which `strip()` and the `\s` of a str pattern
      use: C's whitespace, the separators U+001C-U+001F, and the Unicode
      spaces and line and paragraph separators. */
  predicate IsPySpace(c: char)
  {
    IsSpace(c) || 0x1C <= c as int <= 0x1F || c as int == 0x85 || c as int == 0xA0
    || c as int == 0x1680 || 0x2000 <= c as int <= 0x200A || c as int == 0x2028
    || c as int == 0x2029 || c as int == 0x202F || c as int == 0x205F || c as int == 0x3000
  }

  /** The text after its leading run of `sp` characters. */
  function TrimLeft(s: string, sp: char -> bool): (r: string)
    ensures |r| <= |s|
    ensures r != [] ==> !sp(r[0])
  {
    if s != [] && sp(s[0]) then TrimLeft(s[1..], sp) else s
  }

  /** The text before its trailing run of `sp` characters. */
  function TrimRight(s: string, sp: char -> bool): (r: string)
    ensures |r| <= |s|
    ensures r != [] ==> !sp(r[|r| - 1])
  {
    if s != [] && sp(s[|s| - 1]) then TrimRight(s[..|s| - 1], sp) else s
  }

  lemma {:induction false} TrimRightPrefix(s: string, sp: char -> bool)
    ensures TrimRight(s, sp) == s[..|TrimRight(s, sp)|]
  {
    if s != [] && sp(s[|s| - 1]) {
      TrimRightPrefix(s[..|s| - 1], sp);
    }
  }

  /** Leading whitespace removed: what is cut off is whitespace, and what
      remains is the rest of `s`. */
  lemma {:induction false} TrimLeftCuts(s: string, sp: char -> bool)
    ensures exists i :: 0 <= i <= |s| && TrimLeft(s, sp) == s[i..]
                        && forall k :: 0 <= k < i ==> sp(s[k])
    decreases |s|
  {
    if s != [] && sp(s[0]) {
      TrimLeftCuts(s[1..], sp);
      var i :| 0 <= i <= |s[1..]| && TrimLeft(s[1..], sp) == s[1..][i..]
               && forall k :: 0 <= k < i ==> sp(s[1..][k]);
      assert TrimLeft(s, sp) == s[i + 1..];
      forall k | 0 <= k < i + 1
        ensures sp(s[k])
      {
        if k > 0 {
          assert s[k] == s[1..][k - 1];
        }
      }
    } else {
      assert TrimLeft(s, sp) == s[0..];
    }
  }

  /** Trailing whitespace removed: what is cut off is whitespace, and what
      remains is the start of `s`. */
  lemma {:induction false} TrimRightCuts(s: string, sp: char -> bool)
    ensures exists j :: 0 <= j <= |s| && TrimRight(s, sp) == s[..j]
                        && forall k :: j <= k < |s| ==> sp(s[k])
    decreases |s|
  {
    if s != [] && sp(s[|s| - 1]) {
      var init := s[..|s| - 1];
      TrimRightCuts(init, sp);
      var j :| 0 <= j <= |init| && TrimRight(init, sp) == init[..j]
               && forall k :: j <= k < |init| ==> sp(init[k]);
      assert TrimRight(s, sp) == s[..j];
      forall k | j <= k < |s|
        ensures sp(s[k])
      {
        if k < |s| - 1 {
          assert s[k] == init[k];
        }
      }
    } else {
      assert TrimRight(s, sp) == s[..|s|];
    }
  }

  /** Python's `str.strip()`: the maximal runs of whitespace at both ends
      are cut off, and the rest of `s` is kept as it is. */
  function Strip(s: string): (r: string)
    ensures r != [] ==> !IsPySpace(r[0]) && !IsPySpace(r[|r| - 1])
    ensures exists i, j :: 0 <= i <= j <= |s| && r == s[i..j]
                           && (forall k :: 0 <= k < i ==> IsPySpace(s[k]))
                           && (forall k :: j <= k < |s| ==> IsPySpace(s[k]))
  {
    TrimRightPrefix(TrimLeft(s, IsPySpace), IsPySpace);
    StripCuts(s);
    TrimRight(TrimLeft(s, IsPySpace), IsPySpace)
  }

  lemma StripCuts(s: string)
    ensures exists i, j :: 0 <= i <= j <= |s| && TrimRight(TrimLeft(s, IsPySpace), IsPySpace) == s[i..j]
                           && (forall k :: 0 <= k < i ==> IsPySpace(s[k]))
                           && (forall k :: j <= k < |s| ==> IsPySpace(s[k]))
  {
    TrimLeftCuts(s, IsPySpace);
    var i :| 0 <= i <= |s| && TrimLeft(s, IsPySpace) == s[i..] && forall k :: 0 <= k < i ==> IsPySpace(s[k]);
    TrimRightCuts(s[i..], IsPySpace);
    var j :| 0 <= j <= |s[i..]| && TrimRight(s[i..], IsPySpace) == s[i..][..j]
             && forall k :: j <= k < |s[i..]| ==> IsPySpace(s[i..][k]);
    StripAt(s, i, j);
  }

  lemma StripAt(s: string, i: nat, j: nat)
    requires i <= |s| && j <= |s| - i
    requires forall k :: j <= k < |s[i..]| ==> IsPySpace(s[i..][k])
    ensures s[i..][..j] == s[i..i + j]
    ensures forall k :: i + j <= k < |s| ==> IsPySpace(s[k])
  {
    forall k | i + j <= k < |s|
      ensures IsPySpace(s[k])
    {
      assert s[k] == s[i..][k - i];
    }
  }
}
