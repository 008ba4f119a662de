/** The truncated-hash collision detector (hash_keys.cpp).

    The keys of a trace (the text before the first comma of every
    non-empty line) are gathered into an ordered set. For each prefix
    length 16, 17 and 18 the keys are then visited in ascending order,
    each key's MD5 hex digest is cut to that length, and a digest prefix
    already seen by an earlier key is reported as a collision. The digest
    itself is a parameter of the model. */
module HashKeys {
  import opened Common

  // ---------------------------------------------------------------------------
  // Keys
  // ---------------------------------------------------------------------------

  /** `line.find(',')` then `substr(0, pos)`, or the whole line when there
      is no comma. */
  function ExtractKey(line: string): (key: string)
    ensures |key| <= |line| && key == line[..|key|]
    ensures ',' !in key
    ensures |key| < |line| ==> line[|key|] == ','
  {
    if line == [] || line[0] == ',' then []
    else [line[0]] + ExtractKey(line[1..])
  }

  /** The key set after reading these lines: empty lines are skipped. */
  function KeysOf(lines: seq<string>): set<string>
  {
    if lines == [] then {}
    else
      var last := lines[|lines| - 1];
      KeysOf(lines[..|lines| - 1]) + if last == "" then {} else {ExtractKey(last)}
  }

  /** A key is in the set exactly when some non-empty line yields it. */
  lemma {:induction false} KeysOfMembers(lines: seq<string>, k: string)
    ensures k in KeysOf(lines) <==> exists l :: l in lines && l != "" && ExtractKey(l) == k
  {
    if lines != [] {
      var init, last := lines[..|lines| - 1], lines[|lines| - 1];
      KeysOfMembers(init, k);
      assert lines == init + [last];
      if k in KeysOf(lines) && k !in KeysOf(init) {
        assert last in lines && last != "" && ExtractKey(last) == k;
      }
      if exists l :: l in lines && l != "" && ExtractKey(l) == k {
        var l :| l in lines && l != "" && ExtractKey(l) == k;
        if l != last {
          assert l in init;
        }
      }
    }
  }

  /** The read loop of `main`. */
  method CollectKeys(lines: seq<string>) returns (uniqueKeys: set<string>)
    ensures uniqueKeys == KeysOf(lines)
  {
    uniqueKeys := {};
    var i := 0;
    while i < |lines|
      invariant 0 <= i <= |lines|
      invariant uniqueKeys == KeysOf(lines[..i])
    {
      assert lines[..i + 1][..i] == lines[..i];
      var line := lines[i];
      if line == "" {
        i := i + 1;
        continue;
      }
      uniqueKeys := uniqueKeys + {ExtractKey(line)};
      i := i + 1;
    }
    assert lines[..i] == lines;
  }

  // ---------------------------------------------------------------------------
  // The order of std::set<std::string>
  // ---------------------------------------------------------------------------

  /** Lexicographic order on strings, character by character. */
  predicate LexLeq(a: string, b: string)
    decreases |a|
  {
    a == [] || (b != [] && (a[0] < b[0] || (a[0] == b[0] && LexLeq(a[1..], b[1..]))))
  }

  lemma {:induction false} LexLeqTotal(a: string, b: string)
    ensures LexLeq(a, b) || LexLeq(b, a)
    decreases |a|
  {
    if a != [] && b != [] && a[0] == b[0] {
      LexLeqTotal(a[1..], b[1..]);
    }
  }

  lemma {:induction false} LexLeqAntisymmetric(a: string, b: string)
    requires LexLeq(a, b) && LexLeq(b, a)
    ensures a == b
    decreases |a|
  {
    if a != [] {
      LexLeqAntisymmetric(a[1..], b[1..]);
      assert a == [a[0]] + a[1..] && b == [b[0]] + b[1..];
    }
  }

  lemma {:induction false} LexLeqTransitive(a: string, b: string, c: string)
    requires LexLeq(a, b) && LexLeq(b, c)
    ensures LexLeq(a, c)
    decreases |a|
  {
    if a != [] && a[0] == b[0] && b[0] == c[0] {
      LexLeqTransitive(a[1..], b[1..], c[1..]);
    }
  }

  lemma {:induction false} LexLeqReflexive(a: string)
    ensures LexLeq(a, a)
    decreases |a|
  {
    if a != [] {
      LexLeqReflexive(a[1..]);
    }
  }

  predicate IsLeast(m: string, s: set<string>)
  {
    m in s && forall x :: x in s ==> LexLeq(m, x)
  }

  lemma {:induction false} LeastExists(s: set<string>)
    requires s != {}
    ensures exists m :: IsLeast(m, s)
    decreases |s|
  {
    var y :| y in s;
    var rest := s - {y};
    LexLeqReflexive(y);
    if rest == {} {
      assert s == {y};
      assert IsLeast(y, s);
    } else {
      LeastExists(rest);
      var m :| IsLeast(m, rest);
      LexLeqTotal(y, m);
      if LexLeq(y, m) {
        forall x | x in s
          ensures LexLeq(y, x)
        {
          if x != y {
            LexLeqTransitive(y, m, x);
          }
        }
        assert IsLeast(y, s);
      } else {
        assert IsLeast(m, s);
      }
    }
  }

  lemma LeastUnique(m: string, m': string, s: set<string>)
    requires IsLeast(m, s) && IsLeast(m', s)
    ensures m == m'
  {
    LexLeqAntisymmetric(m, m');
  }

  ghost function Least(s: set<string>): (m: string)
    requires s != {}
    ensures IsLeast(m, s)
  {
    LeastExists(s);
    var m :| IsLeast(m, s);
    m
  }

  /** The iteration order of a `std::set<std::string>`: ascending. */
  ghost function SortedOf(s: set<string>): seq<string>
    decreases |s|
  {
    if s == {} then []
    else
      var m := Least(s);
      [m] + SortedOf(s - {m})
  }

  /** Taking the least element off a set leaves the rest of its ascending
      enumeration. */
  lemma SortedOfStep(s: set<string>, m: string)
    requires IsLeast(m, s)
    ensures SortedOf(s) == [m] + SortedOf(s - {m})
  {
    LeastUnique(m, Least(s), s);
  }

  /** Visiting the least remaining key moves it from the rest of the
      enumeration to the keys visited. */
  lemma VisitLeast(keys: set<string>, remaining: set<string>, visited: seq<string>, m: string)
    requires IsLeast(m, remaining) && SortedOf(keys) == visited + SortedOf(remaining)
    ensures SortedOf(keys) == (visited + [m]) + SortedOf(remaining - {m})
    ensures |remaining - {m}| < |remaining|
  {
    SortedOfStep(remaining, m);
  }

  /** The enumeration visits every element once, in strictly ascending order. */
  lemma {:induction false} SortedOfEnumerates(s: set<string>)
    ensures forall k :: k in SortedOf(s) <==> k in s
    ensures |SortedOf(s)| == |s|
    ensures forall i, j :: 0 <= i < j < |SortedOf(s)| ==>
              LexLeq(SortedOf(s)[i], SortedOf(s)[j]) && SortedOf(s)[i] != SortedOf(s)[j]
    decreases |s|
  {
    if s != {} {
      var m := Least(s);
      var rest := SortedOf(s - {m});
      SortedOfEnumerates(s - {m});
      assert SortedOf(s) == [m] + rest;
      forall i, j | 0 <= i < j < |SortedOf(s)|
        ensures LexLeq(SortedOf(s)[i], SortedOf(s)[j]) && SortedOf(s)[i] != SortedOf(s)[j]
      {
        if i > 0 {
          assert SortedOf(s)[i] == rest[i - 1] && SortedOf(s)[j] == rest[j - 1];
        } else {
          assert SortedOf(s)[j] == rest[j - 1];
          assert rest[j - 1] in s - {m};
        }
      }
    }
  }

  // ---------------------------------------------------------------------------
  // Collision detection for one prefix length
  // ---------------------------------------------------------------------------

  /** `substr(0, n)`: the first n characters, or all of a shorter string. */
  function Truncate(s: string, n: nat): (t: string)
    ensures |t| == if |s| <= n then |s| else n
    ensures t == s[..|t|]
  {
    if |s| <= n then s else s[..n]
  }

  /** A key's digest cut to `cutLen` characters; `md5` stands for
      `MD5::toString` after hashing the key's bytes. */
  function SubHash(md5: string -> string, key: string, cutLen: nat): string
  {
    Truncate(md5(key), cutLen)
  }

  /** One "[Collision]" message: the digest prefix, the key stored for it
      and the key that collided with it. */
  datatype Report = Report(subHash: string, original: string, hashed: string)

  datatype ScanState = ScanState(hashMap: map<string, string>, reports: seq<Report>)

  /** `hashMap` and the reports after visiting the keys in this order: a
      digest prefix seen before is reported, otherwise it is stored with
      its key. */
  function Scan(order: seq<string>, md5: string -> string, cutLen: nat): ScanState
  {
    if order == [] then ScanState(map[], [])
    else
      var st := Scan(order[..|order| - 1], md5, cutLen);
      var key := order[|order| - 1];
      var h := SubHash(md5, key, cutLen);
      if h in st.hashMap then st.(reports := st.reports + [Report(h, st.hashMap[h], key)])
      else st.(hashMap := st.hashMap[h := key])
  }

  lemma ScanSnoc(order: seq<string>, key: string, md5: string -> string, cutLen: nat)
    ensures var st := Scan(order, md5, cutLen);
            var h := SubHash(md5, key, cutLen);
            Scan(order + [key], md5, cutLen)
            == if h in st.hashMap then st.(reports := st.reports + [Report(h, st.hashMap[h], key)])
               else st.(hashMap := st.hashMap[h := key])
  {
    assert (order + [key])[..|order|] == order;
  }

  /** The stored digest prefixes are exactly those of the keys visited. */
  lemma {:induction false} ScanDomain(order: seq<string>, md5: string -> string, cutLen: nat, h: string)
    ensures h in Scan(order, md5, cutLen).hashMap
            <==> exists i :: 0 <= i < |order| && SubHash(md5, order[i], cutLen) == h
  {
    if order != [] {
      var init := order[..|order| - 1];
      ScanDomain(init, md5, cutLen, h);
      assert forall i :: 0 <= i < |init| ==> init[i] == order[i];
    }
  }

  /** Every key is stored or reported: the number of collision reports is
      the number of keys minus the size of `hashMap`. */
  lemma {:induction false} ScanCount(order: seq<string>, md5: string -> string, cutLen: nat)
    ensures |Scan(order, md5, cutLen).reports| == |order| - |Scan(order, md5, cutLen).hashMap|
  {
    if order != [] {
      var init := order[..|order| - 1];
      ScanCount(init, md5, cutLen);
      var st := Scan(init, md5, cutLen);
      var h := SubHash(md5, order[|order| - 1], cutLen);
      if h !in st.hashMap {
        assert st.hashMap[h := order[|order| - 1]].Keys == st.hashMap.Keys + {h};
      }
    }
  }

  /** The first key (in visiting order) with a given digest prefix is the
      one stored for it; later keys never overwrite it. */
  lemma {:induction false} ScanKeepsFirst(order: seq<string>, md5: string -> string, cutLen: nat, i: nat)
    requires i < |order|
    requires forall j :: 0 <= j < i ==> SubHash(md5, order[j], cutLen) != SubHash(md5, order[i], cutLen)
    ensures var h := SubHash(md5, order[i], cutLen);
            h in Scan(order, md5, cutLen).hashMap && Scan(order, md5, cutLen).hashMap[h] == order[i]
    decreases |order|
  {
    var init := order[..|order| - 1];
    var h := SubHash(md5, order[i], cutLen);
    if i == |order| - 1 {
      ScanDomain(init, md5, cutLen, h);
      assert forall j :: 0 <= j < |init| ==> init[j] == order[j];
    } else {
      assert forall j :: 0 <= j <= i ==> init[j] == order[j];
      ScanKeepsFirst(init, md5, cutLen, i);
    }
  }

  /** Two visited keys, the one at i before the one at j, share the digest
      prefix. */
  ghost predicate SharedPrefix(order: seq<string>, md5: string -> string, cutLen: nat)
  {
    exists i, j :: 0 <= i < j < |order| && SubHash(md5, order[i], cutLen) == SubHash(md5, order[j], cutLen)
  }

  /** Some key before position n shares the digest prefix of key n. */
  ghost predicate SharesWithEarlier(order: seq<string>, md5: string -> string, cutLen: nat, n: nat)
    requires n < |order|
  {
    exists i :: 0 <= i < n && SubHash(md5, order[i], cutLen) == SubHash(md5, order[n], cutLen)
  }

  /** A shared pair either lies before the last key or ends at it. */
  lemma SharedPrefixSnoc(order: seq<string>, md5: string -> string, cutLen: nat)
    requires order != []
    ensures var n := |order| - 1;
            SharedPrefix(order, md5, cutLen)
            <==> SharedPrefix(order[..n], md5, cutLen) || SharesWithEarlier(order, md5, cutLen, n)
  {
    var n := |order| - 1;
    var init := order[..n];
    if SharedPrefix(order, md5, cutLen) {
      var i, j :| 0 <= i < j < |order| && SubHash(md5, order[i], cutLen) == SubHash(md5, order[j], cutLen);
      if j < n {
        assert init[i] == order[i] && init[j] == order[j];
      }
    }
    if SharedPrefix(init, md5, cutLen) {
      var i, j :| 0 <= i < j < |init| && SubHash(md5, init[i], cutLen) == SubHash(md5, init[j], cutLen);
      assert init[i] == order[i] && init[j] == order[j];
    }
  }

  /** The last key is reported exactly when its prefix is already stored. */
  lemma ReportsSnoc(order: seq<string>, md5: string -> string, cutLen: nat)
    requires order != []
    ensures var n := |order| - 1;
            var st := Scan(order[..n], md5, cutLen);
            Scan(order, md5, cutLen).reports != []
            <==> st.reports != [] || SubHash(md5, order[n], cutLen) in st.hashMap
  {
  }

  /** The last key's prefix is stored exactly when an earlier key has it. */
  lemma StoredIffEarlier(order: seq<string>, md5: string -> string, cutLen: nat)
    requires order != []
    ensures var n := |order| - 1;
            SubHash(md5, order[n], cutLen) in Scan(order[..n], md5, cutLen).hashMap
            <==> SharesWithEarlier(order, md5, cutLen, n)
  {
    var n := |order| - 1;
    var init := order[..n];
    var h := SubHash(md5, order[n], cutLen);
    ScanDomain(init, md5, cutLen, h);
    assert forall i :: 0 <= i < n ==> init[i] == order[i];
  }

  /** A collision is reported exactly when two visited keys, one after the
      other, share the digest prefix. */
  lemma {:induction false} ScanReportsIff(order: seq<string>, md5: string -> string, cutLen: nat)
    ensures Scan(order, md5, cutLen).reports != [] <==> SharedPrefix(order, md5, cutLen)
  {
    if order != [] {
      ScanReportsIff(order[..|order| - 1], md5, cutLen);
      ReportsSnoc(order, md5, cutLen);
      StoredIffEarlier(order, md5, cutLen);
      SharedPrefixSnoc(order, md5, cutLen);
    }
  }

  /** `collisionFound` after visiting the keys of a set: some two distinct
      keys share the digest prefix. */
  lemma CollisionIffShared(keys: set<string>, md5: string -> string, cutLen: nat)
    ensures Scan(SortedOf(keys), md5, cutLen).reports != []
            <==> exists a, b :: a in keys && b in keys && a != b
                   && SubHash(md5, a, cutLen) == SubHash(md5, b, cutLen)
  {
    var order := SortedOf(keys);
    SortedOfEnumerates(keys);
    ScanReportsIff(order, md5, cutLen);
    if SharedPrefix(order, md5, cutLen) {
      var i, j :| 0 <= i < j < |order| && SubHash(md5, order[i], cutLen) == SubHash(md5, order[j], cutLen);
      assert order[i] in keys && order[j] in keys && order[i] != order[j];
    }
    if exists a, b :: a in keys && b in keys && a != b && SubHash(md5, a, cutLen) == SubHash(md5, b, cutLen) {
      var a, b :| a in keys && b in keys && a != b && SubHash(md5, a, cutLen) == SubHash(md5, b, cutLen);
      SharedFromPair(order, md5, cutLen, a, b);
    }
  }

  /** Two distinct listed keys with one digest prefix make a shared pair,
      whichever comes first. */
  lemma SharedFromPair(order: seq<string>, md5: string -> string, cutLen: nat, a: string, b: string)
    requires a in order && b in order && a != b
    requires SubHash(md5, a, cutLen) == SubHash(md5, b, cutLen)
    ensures SharedPrefix(order, md5, cutLen)
  {
    var i :| 0 <= i < |order| && order[i] == a;
    var j :| 0 <= j < |order| && order[j] == b;
    if j < i {
      assert 0 <= j < i < |order| && SubHash(md5, order[j], cutLen) == SubHash(md5, order[i], cutLen);
    } else {
      assert 0 <= i < j < |order| && SubHash(md5, order[i], cutLen) == SubHash(md5, order[j], cutLen);
    }
  }

  /** A shared prefix of 17 or 18 characters is also a shared prefix of
      fewer: a collision at a longer cut is a collision at every shorter
      one. */
  lemma TruncateShorter(s: string, t: string, n: nat, m: nat)
    requires m <= n && Truncate(s, n) == Truncate(t, n)
    ensures Truncate(s, m) == Truncate(t, m)
  {
    assert Truncate(s, m) == Truncate(s, n)[..if |Truncate(s, n)| <= m then |Truncate(s, n)| else m];
    assert Truncate(t, m) == Truncate(t, n)[..if |Truncate(t, n)| <= m then |Truncate(t, n)| else m];
  }

  /** The inner loop of `main` for one `cutLen`: a fresh map and flag, the
      keys visited in the set's ascending order. */
  method DetectCollisions(uniqueKeys: set<string>, md5: string -> string, cutLen: nat)
    returns (hashMap: map<string, string>, collisionFound: bool, reports: seq<Report>)
    ensures ScanState(hashMap, reports) == Scan(SortedOf(uniqueKeys), md5, cutLen)
    ensures collisionFound <==> reports != []
  {
    hashMap := map[];
    collisionFound := false;
    reports := [];
    var remaining := uniqueKeys;
    ghost var visited: seq<string> := [];
    while remaining != {}
      invariant SortedOf(uniqueKeys) == visited + SortedOf(remaining)
      invariant ScanState(hashMap, reports) == Scan(visited, md5, cutLen)
      invariant collisionFound <==> reports != []
      decreases |remaining|
    {
      LeastExists(remaining);
      var originalKey :| IsLeast(originalKey, remaining);
      VisitLeast(uniqueKeys, remaining, visited, originalKey);
      ScanSnoc(visited, originalKey, md5, cutLen);
      var subHash := SubHash(md5, originalKey, cutLen);
      if subHash in hashMap {
        collisionFound := true;
        reports := reports + [Report(subHash, hashMap[subHash], originalKey)];
      } else {
        hashMap := hashMap[subHash := originalKey];
      }
      visited := visited + [originalKey];
      remaining := remaining - {originalKey};
    }
    assert visited + [] == visited;
  }

  // ---------------------------------------------------------------------------
  // The whole tool
  // ---------------------------------------------------------------------------

  const CUT_LENGTHS: seq<nat> := [16, 17, 18]

  /** What `main` reports for one prefix length. */
  datatype CutResult = CutResult(cutLen: nat, reports: seq<Report>, collisionFound: bool)

  /** `main` after the argument checks: the keys of the trace lines, then
      one independent detection per prefix length. "No hash collision" is
      printed for a result whose `collisionFound` is false. */
  method HashKeysMain(lines: seq<string>, md5: string -> string) returns (results: seq<CutResult>)
    ensures |results| == |CUT_LENGTHS|
    ensures forall c :: 0 <= c < |results| ==>
              results[c].cutLen == CUT_LENGTHS[c]
              && results[c].reports == Scan(SortedOf(KeysOf(lines)), md5, CUT_LENGTHS[c]).reports
              && results[c].collisionFound == (results[c].reports != [])
  {
    var uniqueKeys := CollectKeys(lines);
    results := [];
    var c := 0;
    while c < |CUT_LENGTHS|
      invariant 0 <= c <= |CUT_LENGTHS| && |results| == c
      invariant forall d :: 0 <= d < c ==>
                  results[d].cutLen == CUT_LENGTHS[d]
                  && results[d].reports == Scan(SortedOf(uniqueKeys), md5, CUT_LENGTHS[d]).reports
                  && results[d].collisionFound == (results[d].reports != [])
    {
      var cutLen := CUT_LENGTHS[c];
      var hashMap, collisionFound, reports := DetectCollisions(uniqueKeys, md5, cutLen);
      results := results + [CutResult(cutLen, reports, collisionFound)];
      c := c + 1;
    }
  }
}
