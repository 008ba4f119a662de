/** The statistics-report reader (info_to_excel.py, `parse_analysis_txt`).

    The report that the statistics tool writes has three sections, each
    opened by a `=== title ===` line. The reader strips every line, follows
    the section headers, and inside a section searches each line for seven
    "name : value" fields, keeping the last value seen for each field of
    each section. The spreadsheet is then filled with `get`, which falls
    back to "0" for a field that was never seen. */
module InfoToExcel {
  import opened Common

  // ---------------------------------------------------------------------------
  // Field patterns
  // ---------------------------------------------------------------------------

  /** A field: the key it is stored under, the text that follows the key in
      the pattern's literal part, and whether the captured value may hold
      dots (`[\d\.]+`) or only digits (`[\d]+`). */
  datatype FieldPattern = FieldPattern(key: string, detail: string, allowDot: bool)
  {
    /** The literal text the pattern starts with. */
    function Name(): string
    {
      key + detail
    }
  }

  /** The patterns, in dictionary order. */
  const PATTERNS: seq<FieldPattern> := [
    FieldPattern("Average key size", "", true),
    FieldPattern("Average value size", "", true),
    FieldPattern("Average object size", "", true),
    FieldPattern("Footprint1", " (sum of object size)", false),
    FieldPattern("Footprint2", " (sum of average of duplicated key)", false),
    FieldPattern("Unique key count", "", false),
    FieldPattern("Total key count", "", false)
  ]

  /** The leading whitespace of `s` (`\s*`, greedy). */
  function SpaceRun(s: string): (w: string)
    ensures |w| <= |s| && w == s[..|w|]
    ensures forall i :: 0 <= i < |w| ==> IsPySpace(w[i])
    ensures |w| < |s| ==> !IsPySpace(s[|w|])
  {
    if s != [] && IsPySpace(s[0]) then [s[0]] + SpaceRun(s[1..]) else []
  }

  predicate IsValueChar(c: char, allowDot: bool)
  {
    IsDigit(c) || (allowDot && c == '.')
  }

  /** The leading value characters of `s` (the greedy capture group). */
  function ValueRun(s: string, allowDot: bool): (v: string)
    ensures |v| <= |s| && v == s[..|v|]
    ensures forall i :: 0 <= i < |v| ==> IsValueChar(v[i], allowDot)
    ensures |v| < |s| ==> !IsValueChar(s[|v|], allowDot)
  {
    if s != [] && IsValueChar(s[0], allowDot) then [s[0]] + ValueRun(s[1..], allowDot) else []
  }

  /** The pattern matched at position i: the name, optional whitespace, a
      colon, optional whitespace and a non-empty value, which is captured. */
  function MatchAt(line: string, i: nat, p: FieldPattern): Option<string>
    requires i <= |line|
  {
    if !StartsWith(line[i..], p.Name()) then None
    else AfterName(line[i + |p.Name()|..], p.allowDot)
  }

  /** The rest of the pattern after the name: `\s*:` and then the value. */
  function AfterName(s: string, allowDot: bool): Option<string>
  {
    var w := SpaceRun(s);
    if |w| >= |s| || s[|w|] != ':' then None else AfterColon(s[|w| + 1..], allowDot)
  }

  /** The rest of the pattern after the colon: `\s*` and the non-empty
      captured value. */
  function AfterColon(s: string, allowDot: bool): Option<string>
  {
    var v := ValueRun(s[|SpaceRun(s)|..], allowDot);
    if v == [] then None else Some(v)
  }

  /** `re.search(pattern, line).group(1)`: the capture of the leftmost
      match at or after position k. */
  function SearchFrom(line: string, p: FieldPattern, k: nat): (r: Option<string>)
    requires k <= |line|
    ensures r.Some? ==> exists i :: k <= i <= |line| && MatchAt(line, i, p) == r
                                   && forall i' :: k <= i' < i ==> MatchAt(line, i', p).None?
    ensures r.None? ==> forall i :: k <= i <= |line| ==> MatchAt(line, i, p).None?
    decreases |line| - k
  {
    if MatchAt(line, k, p).Some? then MatchAt(line, k, p)
    else if k == |line| then None
    else
      var r := SearchFrom(line, p, k + 1);
      NoMatchBefore(line, p, k, r);
      r
  }

  /** A miss at k moves the leftmost match found from k + 1 back to k. */
  lemma NoMatchBefore(line: string, p: FieldPattern, k: nat, r: Option<string>)
    requires k < |line| && MatchAt(line, k, p).None?
    requires r.Some? ==> exists i :: k + 1 <= i <= |line| && MatchAt(line, i, p) == r
                                    && forall i' :: k + 1 <= i' < i ==> MatchAt(line, i', p).None?
    ensures r.Some? ==> exists i :: k <= i <= |line| && MatchAt(line, i, p) == r
                                   && forall i' :: k <= i' < i ==> MatchAt(line, i', p).None?
  {
    if r.Some? {
      var i :| k + 1 <= i <= |line| && MatchAt(line, i, p) == r
               && forall i' :: k + 1 <= i' < i ==> MatchAt(line, i', p).None?;
      assert forall i' :: k <= i' < i ==> MatchAt(line, i', p).None?;
    }
  }

  function Search(line: string, p: FieldPattern): Option<string>
  {
    SearchFrom(line, p, 0)
  }

  /** A captured value is never empty and is made only of digits (and, for
      the averages, dots). */
  lemma CaptureCharset(line: string, p: FieldPattern)
    requires Search(line, p).Some?
    ensures var v := Search(line, p).value;
            v != [] && forall j :: 0 <= j < |v| ==> IsValueChar(v[j], p.allowDot)
  {
    var i :| 0 <= i <= |line| && MatchAt(line, i, p) == Search(line, p);
  }

  /** A line as the statistics tool prints it (the name, padding, a colon,
      a space, the value) yields the value. */
  lemma PrintedFieldReadsBack(p: FieldPattern, pad: string, v: string)
    requires p.Name() != [] && forall j :: 0 <= j < |pad| ==> IsPySpace(pad[j])
    requires v != [] && forall j :: 0 <= j < |v| ==> IsValueChar(v[j], p.allowDot)
    ensures Search(p.Name() + pad + ": " + v, p) == Some(v)
  {
    var name := p.Name();
    var line := name + pad + ": " + v;
    assert StartsWith(line[0..], name) by {
      assert line[0..][..|name|] == name;
      StartsWithIff(line[0..], name);
    }
    assert line[|name|..] == pad + ": " + v;
    PaddedColonReadsBack(pad, v, p.allowDot);
    assert MatchAt(line, 0, p) == Some(v);
  }

  lemma PaddedColonReadsBack(pad: string, v: string, allowDot: bool)
    requires forall j :: 0 <= j < |pad| ==> IsPySpace(pad[j])
    requires v != [] && forall j :: 0 <= j < |v| ==> IsValueChar(v[j], allowDot)
    ensures AfterName(pad + ": " + v, allowDot) == Some(v)
  {
    var s := pad + ": " + v;
    assert s == pad + (": " + v);
    SpaceRunOf(pad, ": " + v);
    assert s[|pad|] == ':';
    assert s[|pad| + 1..] == " " + v;
    SpaceRunOf(" ", v);
    assert (" " + v)[1..] == v;
    ValueRunAll(v, allowDot);
  }

  lemma {:induction false} SpaceRunOf(w: string, rest: string)
    requires forall j :: 0 <= j < |w| ==> IsPySpace(w[j])
    requires rest != [] && !IsPySpace(rest[0])
    ensures SpaceRun(w + rest) == w
    decreases |w|
  {
    if w != [] {
      assert (w + rest)[1..] == w[1..] + rest;
      SpaceRunOf(w[1..], rest);
      assert w == [w[0]] + w[1..];
    } else {
      assert w + rest == rest;
    }
  }

  lemma {:induction false} ValueRunAll(v: string, allowDot: bool)
    requires forall j :: 0 <= j < |v| ==> IsValueChar(v[j], allowDot)
    ensures ValueRun(v, allowDot) == v
    decreases |v|
  {
    if v != [] {
      ValueRunAll(v[1..], allowDot);
      assert v == [v[0]] + v[1..];
    }
  }

  // ---------------------------------------------------------------------------
  // Sections
  // ---------------------------------------------------------------------------

  const UNDER: string := "Under2KB"
  const OVER: string := "Over2KB"
  const ALL: string := "All"

  /** The section a header line switches to, checked in the order of the
      `if`/`elif` chain. */
  function HeaderSection(line: string): (s: Option<string>)
    ensures s.Some? ==> s.value in {UNDER, OVER, ALL}
  {
    if StartsWith(line, "=== Under 2KB ===") then Some(UNDER)
    else if StartsWith(line, "=== Over 2KB ===") then Some(OVER)
    else if StartsWith(line, "=== All ===") then Some(ALL)
    else None
  }

  type Fields = map<string, string>

  /** `data` and `current_section`. */
  datatype ParseState = ParseState(data: map<string, Fields>, section: Option<string>)

  predicate WellFormed(st: ParseState)
  {
    st.data.Keys == {UNDER, OVER, ALL} && (st.section.Some? ==> st.section.value in st.data)
  }

  const INITIAL: ParseState := ParseState(map[UNDER := map[], OVER := map[], ALL := map[]], None)

  /** The inner `for` over the patterns: every pattern that matches stores
      its capture under its key, replacing an earlier value. */
  function ScanPatterns(fields: Fields, line: string, ps: seq<FieldPattern>): Fields
  {
    if ps == [] then fields else StoreCapture(ScanPatterns(fields, line, ps[..|ps| - 1]), line, ps[|ps| - 1])
  }

  /** One pattern of the inner loop: `if match: ... = match.group(1)`. */
  function StoreCapture(f: Fields, line: string, p: FieldPattern): Fields
  {
    match Search(line, p)
    case None => f
    case Some(v) => f[p.key := v]
  }

  lemma ScanPatternsPrefix(fields: Fields, line: string, ps: seq<FieldPattern>, k: nat)
    requires k < |ps|
    ensures ScanPatterns(fields, line, ps[..k + 1])
            == StoreCapture(ScanPatterns(fields, line, ps[..k]), line, ps[k])
  {
    assert ps[..k + 1][..k] == ps[..k];
  }

  /** One line of the outer loop. */
  function Step(st: ParseState, rawLine: string): (st': ParseState)
    requires WellFormed(st)
    ensures WellFormed(st')
  {
    var line := Strip(rawLine);
    match HeaderSection(line)
    case Some(s) => st.(section := Some(s))
    case None =>
      if st.section.None? then st
      else st.(data := st.data[st.section.value := ScanPatterns(st.data[st.section.value], line, PATTERNS)])
  }

  /** The outer loop run over `lines` from state `st`. */
  function ParseFrom(st: ParseState, lines: seq<string>): (st': ParseState)
    requires WellFormed(st)
    ensures WellFormed(st')
  {
    if lines == [] then st else Step(ParseFrom(st, lines[..|lines| - 1]), lines[|lines| - 1])
  }

  /** What `parse_analysis_txt` returns for a file, with its final section. */
  function ParseAll(lines: seq<string>): (st: ParseState)
    ensures WellFormed(st)
  {
    ParseFrom(INITIAL, lines)
  }

  lemma {:induction false} ParseFromAppend(st: ParseState, a: seq<string>, b: seq<string>)
    requires WellFormed(st)
    ensures ParseFrom(st, a + b) == ParseFrom(ParseFrom(st, a), b)
  {
    if b != [] {
      assert (a + b)[..|a + b| - 1] == a + b[..|b| - 1];
      ParseFromAppend(st, a, b[..|b| - 1]);
    } else {
      assert a + b == a;
    }
  }

  lemma ParseFromCons(st: ParseState, line: string, rest: seq<string>)
    requires WellFormed(st)
    ensures ParseFrom(st, [line] + rest) == ParseFrom(Step(st, line), rest)
  {
    ParseFromAppend(st, [line], rest);
    assert [line][..0] == [];
  }

  /** The inner loop of `parse_analysis_txt` over the patterns, for one
      line of a section. */
  method ScanLine(fields: Fields, line: string) returns (f: Fields)
    ensures f == ScanPatterns(fields, line, PATTERNS)
  {
    f := fields;
    var k := 0;
    while k < |PATTERNS|
      invariant 0 <= k <= |PATTERNS|
      invariant f == ScanPatterns(fields, line, PATTERNS[..k])
    {
      ScanPatternsPrefix(fields, line, PATTERNS, k);
      var p := PATTERNS[k];
      var m := Search(line, p);
      if m.Some? {
        f := f[p.key := m.value];
      }
      k := k + 1;
    }
    assert PATTERNS[..k] == PATTERNS;
  }

  /** `parse_analysis_txt` over the file's lines. */
  method ParseAnalysisTxt(lines: seq<string>) returns (data: map<string, Fields>)
    ensures data == ParseAll(lines).data
    ensures data.Keys == {UNDER, OVER, ALL}
  {
    data := map[UNDER := map[], OVER := map[], ALL := map[]];
    var currentSection: Option<string> := None;
    var i := 0;
    while i < |lines|
      invariant 0 <= i <= |lines|
      invariant ParseState(data, currentSection) == ParseAll(lines[..i])
    {
      ParseAllSnoc(lines, i);
      data, currentSection := ParseLine(data, currentSection, lines[i]);
      i := i + 1;
    }
    assert lines[..i] == lines;
  }

  lemma ParseAllSnoc(lines: seq<string>, i: nat)
    requires i < |lines|
    ensures ParseAll(lines[..i + 1]) == Step(ParseAll(lines[..i]), lines[i])
  {
    assert lines[..i + 1][..i] == lines[..i];
  }

  /** The body of the outer loop for one raw line: a header switches the
      section, a line before any header is skipped, any other line is
      scanned into the current section. */
  method ParseLine(data: map<string, Fields>, currentSection: Option<string>, rawLine: string)
    returns (data': map<string, Fields>, currentSection': Option<string>)
    requires WellFormed(ParseState(data, currentSection))
    ensures ParseState(data', currentSection') == Step(ParseState(data, currentSection), rawLine)
  {
    data', currentSection' := data, currentSection;
    var line := Strip(rawLine);
    var header := HeaderSection(line);
    if header.Some? {
      currentSection' := header;
      return;
    }
    if currentSection.None? {
      return;
    }
    var section := currentSection.value;
    var fields := ScanLine(data[section], line);
    data' := data[section := fields];
  }

  // ---------------------------------------------------------------------------
  // Properties
  // ---------------------------------------------------------------------------

  /** A header line switches the section and is not scanned for values. */
  lemma HeaderSwitches(st: ParseState, rawLine: string)
    requires WellFormed(st) && HeaderSection(Strip(rawLine)).Some?
    ensures Step(st, rawLine).data == st.data
    ensures Step(st, rawLine).section == HeaderSection(Strip(rawLine))
  {
  }

  /** A header behind an information separator (U+001C), which `strip()`
      removes like any other whitespace, still switches the section. */
  lemma SeparatedHeader(st: ParseState)
    requires WellFormed(st)
    ensures Step(st, [0x1C as char] + "=== All ===").section == Some(ALL)
    ensures Step(st, [0x1C as char] + "=== All ===").data == st.data
  {
    StripPadded([0x1C as char], "=== All ===");
  }

  /** Lines before the first header contribute nothing. */
  lemma {:induction false} BeforeAnyHeader(lines: seq<string>)
    requires forall j :: 0 <= j < |lines| ==> HeaderSection(Strip(lines[j])).None?
    ensures ParseAll(lines) == INITIAL
  {
    if lines != [] {
      BeforeAnyHeader(lines[..|lines| - 1]);
      assert ParseAll(lines) == Step(ParseAll(lines[..|lines| - 1]), lines[|lines| - 1]);
    }
  }

  /** Inside a section a line only changes that section's fields; the other
      sections and the current section are untouched. */
  lemma OnlyCurrentSection(st: ParseState, rawLine: string, other: string)
    requires WellFormed(st) && HeaderSection(Strip(rawLine)).None?
    requires other in st.data && (st.section.None? || other != st.section.value)
    ensures Step(st, rawLine).data[other] == st.data[other]
    ensures Step(st, rawLine).section == st.section
  {
  }

  /** The capture the last pattern with this key makes on the line, if any. */
  function LastCapture(line: string, ps: seq<FieldPattern>, key: string): Option<string>
  {
    if ps == [] then None
    else if ps[|ps| - 1].key == key && Search(line, ps[|ps| - 1]).Some? then Search(line, ps[|ps| - 1])
    else LastCapture(line, ps[..|ps| - 1], key)
  }

  /** The patterns store exactly the captures of the line: a field some
      pattern captures gets the last such capture, any other field keeps
      its value. */
  lemma {:induction false} ScanPatternsStores(fields: Fields, line: string, ps: seq<FieldPattern>, key: string)
    ensures var f := ScanPatterns(fields, line, ps);
            match LastCapture(line, ps, key)
            case Some(v) => key in f && f[key] == v
            case None => (key in f <==> key in fields) && (key in fields ==> f[key] == fields[key])
  {
    if ps != [] {
      ScanPatternsStores(fields, line, ps[..|ps| - 1], key);
    }
  }

  /** When no two patterns share a key, a pattern that matches is the last
      capture for its key. */
  lemma {:induction false} LastCaptureDistinct(line: string, ps: seq<FieldPattern>, j: nat)
    requires j < |ps| && Search(line, ps[j]).Some?
    requires forall j1, j2 :: 0 <= j1 < j2 < |ps| ==> ps[j1].key != ps[j2].key
    ensures LastCapture(line, ps, ps[j].key) == Search(line, ps[j])
  {
    if j < |ps| - 1 {
      var init := ps[..|ps| - 1];
      assert init[j] == ps[j];
      LastCaptureDistinct(line, init, j);
    }
  }

  /** No capture for a key when every pattern with that key misses. */
  lemma {:induction false} LastCaptureNone(line: string, ps: seq<FieldPattern>, key: string)
    requires forall i :: 0 <= i < |ps| && ps[i].key == key ==> Search(line, ps[i]).None?
    ensures LastCapture(line, ps, key).None?
  {
    if ps != [] {
      var init := ps[..|ps| - 1];
      forall i | 0 <= i < |init| && init[i].key == key
        ensures Search(line, init[i]).None?
      {
        assert init[i] == ps[i];
      }
      LastCaptureNone(line, init, key);
    }
  }

  /** A field whose pattern captures on no scanned line is never stored:
      if no section held it before, none holds it after. */
  lemma {:induction false} NeverCapturedStaysAbsent(st: ParseState, lines: seq<string>, j: nat)
    requires WellFormed(st) && j < |PATTERNS|
    requires forall s :: s in st.data ==> PATTERNS[j].key !in st.data[s]
    requires forall i :: 0 <= i < |lines| ==>
               HeaderSection(Strip(lines[i])).Some? || Search(Strip(lines[i]), PATTERNS[j]).None?
    ensures forall s :: s in ParseFrom(st, lines).data ==> PATTERNS[j].key !in ParseFrom(st, lines).data[s]
  {
    if lines != [] {
      var init := lines[..|lines| - 1];
      var last := lines[|lines| - 1];
      NeverCapturedStaysAbsent(st, init, j);
      StepKeepsAbsent(ParseFrom(st, init), last, j);
    }
  }

  /** One line that does not capture a field does not store it. */
  lemma StepKeepsAbsent(st: ParseState, rawLine: string, j: nat)
    requires WellFormed(st) && j < |PATTERNS|
    requires forall s :: s in st.data ==> PATTERNS[j].key !in st.data[s]
    requires HeaderSection(Strip(rawLine)).Some? || Search(Strip(rawLine), PATTERNS[j]).None?
    ensures forall s :: s in Step(st, rawLine).data ==> PATTERNS[j].key !in Step(st, rawLine).data[s]
  {
    var line := Strip(rawLine);
    if HeaderSection(line).None? && st.section.Some? {
      var key := PATTERNS[j].key;
      var sec := st.section.value;
      PatternKeysDistinct();
      forall i | 0 <= i < |PATTERNS| && PATTERNS[i].key == key
        ensures Search(line, PATTERNS[i]).None?
      {
        assert i == j;
      }
      LastCaptureNone(line, PATTERNS, key);
      var f := ScanPatterns(st.data[sec], line, PATTERNS);
      ScanPatternsStores(st.data[sec], line, PATTERNS, key);
      assert key !in f;
      assert Step(st, rawLine).data == st.data[sec := f];
    }
  }

  lemma PatternKeysDistinct()
    ensures forall j1, j2 :: 0 <= j1 < j2 < |PATTERNS| ==> PATTERNS[j1].key != PATTERNS[j2].key
  {
  }

  /** A line inside a section that matches a field stores the capture under
      the field's key in the current section, replacing what an earlier line
      stored there. */
  lemma LaterMatchWins(st: ParseState, rawLine: string, j: nat)
    requires WellFormed(st) && HeaderSection(Strip(rawLine)).None? && st.section.Some?
    requires j < |PATTERNS| && Search(Strip(rawLine), PATTERNS[j]).Some?
    ensures PATTERNS[j].key in Step(st, rawLine).data[st.section.value]
    ensures Step(st, rawLine).data[st.section.value][PATTERNS[j].key]
            == Search(Strip(rawLine), PATTERNS[j]).value
  {
    var line := Strip(rawLine);
    PatternKeysDistinct();
    LastCaptureDistinct(line, PATTERNS, j);
    ScanPatternsStores(st.data[st.section.value], line, PATTERNS, PATTERNS[j].key);
  }

  // ---------------------------------------------------------------------------
  // The lookup in convert_to_excel
  // ---------------------------------------------------------------------------

  /** `get(section, key, default)`: the stored value, or the default. */
  function Get(data: map<string, Fields>, section: string, key: string, default: string): (v: string)
    requires section in data
    ensures key in data[section] ==> v == data[section][key]
    ensures key !in data[section] ==> v == default
  {
    if key in data[section] then data[section][key] else default
  }

  /** A field no line of the report captures is absent from every section
      and so reads as "0"; header lines are never scanned, so they may
      contain anything. */
  lemma MissingFieldIsZero(lines: seq<string>, section: string, j: nat)
    requires section in {UNDER, OVER, ALL} && j < |PATTERNS|
    requires forall i :: 0 <= i < |lines| ==>
               HeaderSection(Strip(lines[i])).Some? || Search(Strip(lines[i]), PATTERNS[j]).None?
    ensures Get(ParseAll(lines).data, section, PATTERNS[j].key, "0") == "0"
  {
    NeverCapturedStaysAbsent(INITIAL, lines, j);
  }

  // ---------------------------------------------------------------------------
  // Reading back the statistics tool's report
  // ---------------------------------------------------------------------------

  /** The padding `printStats` (trace_info.cpp) puts between each field
      name and its colon. */
  const PADS: seq<string> := ["     ", "   ", "  ", "               ", " "]

  /** The text `printStats` writes before field j's value, e.g.
      `  Average key size     : `; its value follows. */
  function Label(j: nat): string
    requires j < 5
  {
    "  " + PATTERNS[j].Name() + PADS[j] + ": "
  }

  lemma PadIsSpaces(j: nat)
    requires j < 5
    ensures forall i :: 0 <= i < |PADS[j]| ==> IsPySpace(PADS[j][i])
  {
    var pad := PADS[j];
    if j == 0 {
      assert pad == "     ";
    } else if j == 1 {
      assert pad == "   ";
    } else if j == 2 {
      assert pad == "  ";
    } else if j == 3 {
      assert pad == "               ";
    } else {
      assert pad == " ";
    }
  }

  lemma PatternNamesCapitalised(k: nat)
    requires k < |PATTERNS|
    ensures PATTERNS[k].Name() != [] && 'A' <= PATTERNS[k].Name()[0] <= 'Z'
  {
    var key := PATTERNS[k].key;
    assert key != [] && 'A' <= key[0] <= 'Z' by {
      if k < 3 {
        assert key[..7] == "Average";
      } else if k < 5 {
        assert key[..9] == "Footprint";
      } else if k == 5 {
        assert key == "Unique key count";
      } else {
        assert key == "Total key count";
      }
    }
    assert PATTERNS[k].Name()[0] == key[0];
  }

  lemma {:induction false} TrimLeftSpaces(w: string, x: string)
    requires forall i :: 0 <= i < |w| ==> IsPySpace(w[i])
    requires x != [] && !IsPySpace(x[0])
    ensures TrimLeft(w + x, IsPySpace) == x
    decreases |w|
  {
    if w != [] {
      assert (w + x)[1..] == w[1..] + x;
      TrimLeftSpaces(w[1..], x);
    } else {
      assert w + x == x;
    }
  }

  lemma StripPadded(w: string, x: string)
    requires forall i :: 0 <= i < |w| ==> IsPySpace(w[i])
    requires x != [] && !IsPySpace(x[0]) && !IsPySpace(x[|x| - 1])
    ensures Strip(w + x) == x
  {
    TrimLeftSpaces(w, x);
  }

  /** Stripping a printed field line removes the two leading spaces. */
  lemma StripLabel(j: nat, v: string)
    requires j < 5 && v != [] && forall i :: 0 <= i < |v| ==> IsValueChar(v[i], PATTERNS[j].allowDot)
    ensures Strip(Label(j) + v) == PATTERNS[j].Name() + PADS[j] + ": " + v
  {
    var body := PATTERNS[j].Name() + PADS[j] + ": " + v;
    assert Label(j) + v == "  " + body;
    PatternNamesCapitalised(j);
    assert body[0] == PATTERNS[j].Name()[0];
    assert body[|body| - 1] == v[|v| - 1];
    StripPadded("  ", body);
  }

  /** A printed field line is not a header, and its field's pattern
      captures exactly the printed value. */
  lemma PrintedLineMatches(j: nat, v: string)
    requires j < 5 && v != [] && forall i :: 0 <= i < |v| ==> IsValueChar(v[i], PATTERNS[j].allowDot)
    ensures HeaderSection(Strip(Label(j) + v)).None?
    ensures Search(Strip(Label(j) + v), PATTERNS[j]) == Some(v)
  {
    var body := PATTERNS[j].Name() + PADS[j] + ": " + v;
    StripLabel(j, v);
    PatternNamesCapitalised(j);
    assert HeaderSection(body).None? by {
      assert body[0] == PATTERNS[j].Name()[0];
    }
    PadIsSpaces(j);
    PrintedFieldReadsBack(PATTERNS[j], PADS[j], v);
  }

  /** A field line as the statistics tool prints it, read inside a section,
      stores the printed value under the field's key there: footprints
      (printed as plain integers) and averages (digits and a decimal point)
      read back as written. */
  lemma PrintedLineReadsBack(st: ParseState, j: nat, v: string)
    requires WellFormed(st) && st.section.Some?
    requires j < 5 && v != [] && forall i :: 0 <= i < |v| ==> IsValueChar(v[i], PATTERNS[j].allowDot)
    ensures Step(st, Label(j) + v).section == st.section
    ensures PATTERNS[j].key in Step(st, Label(j) + v).data[st.section.value]
    ensures Step(st, Label(j) + v).data[st.section.value][PATTERNS[j].key] == v
  {
    PrintedLineMatches(j, v);
    LaterMatchWins(st, Label(j) + v, j);
  }

  /** In particular a footprint line yields the footprint's decimal text. */
  lemma FootprintReadsBack(st: ParseState, j: nat, footprint: nat)
    requires WellFormed(st) && st.section.Some? && 3 <= j < 5
    ensures PATTERNS[j].key in Step(st, Label(j) + NatToString(footprint)).data[st.section.value]
    ensures Step(st, Label(j) + NatToString(footprint)).data[st.section.value][PATTERNS[j].key]
            == NatToString(footprint)
  {
    PrintedLineReadsBack(st, j, NatToString(footprint));
  }
}
