/** The trace preprocessor: reads a raw seven-column trace line by line,
    re-joins keys that were broken up by embedded commas, drops lines that do
    not parse, keeps only get, gets and delete requests (and of the reads
    only those with a non-empty value), and writes the survivors back in the
    seven-column form. */
module PreprocessTrace {
  import opened Common
  import opened TraceRecord

  // ---------------------------------------------------------------------------
  // Tokenising and key repair
  // ---------------------------------------------------------------------------

  /** The comma-separated tokens of a line, read one character at a time as
      `std::getline` on a string stream hands them out. */
  method Tokenize(line: string) returns (fields: seq<string>)
    ensures fields == GetlineSplit(line, ',')
  {
    fields := [];
    var token := "";
    var i := 0;
    while i < |line|
      invariant 0 <= i <= |line|
      invariant fields + [token] == SplitAll(line[..i], ',')
    {
      assert line[..i + 1][..i] == line[..i];
      if line[i] == ',' {
        fields := fields + [token];
        token := "";
      } else {
        token := token + [line[i]];
      }
      i := i + 1;
    }
    assert line[..i] == line;
    assert (fields + [token])[..|fields|] == fields;
    if token != "" {
      fields := fields + [token];
    }
  }

  /** `fixKey`: the tokens from `startIdx` to `endIdx` inclusive glued back
      together, which drops the commas that split them. */
  method FixKey(fields: seq<string>, startIdx: nat, endIdx: nat) returns (fixedKey: string)
    requires startIdx <= endIdx ==> endIdx < |fields|
    ensures fixedKey == if startIdx <= endIdx then Concat(fields[startIdx..endIdx + 1]) else ""
  {
    fixedKey := "";
    if startIdx > endIdx {
      return;
    }
    var i := startIdx;
    assert fields[startIdx..i] == [];
    while i <= endIdx
      invariant startIdx <= i <= endIdx + 1
      invariant fixedKey == Concat(fields[startIdx..i])
    {
      ConcatAppend(fields[startIdx..i], fields[i]);
      assert fields[startIdx..i + 1] == fields[startIdx..i] + [fields[i]];
      fixedKey := fixedKey + fields[i];
      i := i + 1;
    }
  }

  // ---------------------------------------------------------------------------
  // Decoding a line
  // ---------------------------------------------------------------------------

  /** The record a token list stands for: the first token is the timestamp,
      the last five are key size, value size, client id, operation and TTL,
      and every token in between belongs to the key. Fewer than seven tokens,
      or a numeric token `std::stoull`/`std::stoul` rejects, gives None. The
      32-bit size columns keep the low 32 bits of what was read. */
  function DecodeFields(fields: seq<string>): (r: Option<Row>)
  {
    if |fields| < 7 then None
    else
      var e := |fields| - 6;
      DecodeColumns(fields[0], fields[1..e + 1], fields[e + 1], fields[e + 2], fields[e + 3],
                    fields[e + 4], fields[e + 5])
  }

  /** The conversions of the seven columns, once the key tokens are known. */
  function DecodeColumns(ts: string, keyTokens: seq<string>, ks: string, vs: string,
                         cid: string, op: string, ttl: string): (r: Option<Row>)
  {
    var t := StoULL(ts);
    var k := StoULL(ks);
    var v := StoULL(vs);
    var c := StoULL(cid);
    var l := StoULL(ttl);
    if t.None? || k.None? || v.None? || c.None? || l.None? then None
    else Some(Row(t.value, Concat(keyTokens), k.value % U32, v.value % U32, c.value, op, l.value))
  }

  /** What `parseLine` makes of one line. */
  function DecodeLine(line: string): Option<Row>
  {
    DecodeFields(GetlineSplit(line, ','))
  }

  /** `parseLine`: tokenise, check the token count, repair the key, convert
      the numeric columns; None where the source returns false. */
  method ParseLine(line: string) returns (row: Option<Row>)
    ensures row == DecodeLine(line)
  {
    var fields := Tokenize(line);
    if |fields| < 7 {
      return None;
    }
    var keyEndIdx := |fields| - 6;
    var ts := StoULL(fields[0]);
    var key := FixKey(fields, 1, keyEndIdx);
    var ks := StoULL(fields[keyEndIdx + 1]);
    var vs := StoULL(fields[keyEndIdx + 2]);
    var cid := StoULL(fields[keyEndIdx + 3]);
    var op := fields[keyEndIdx + 4];
    var ttl := StoULL(fields[keyEndIdx + 5]);
    if ts.None? || ks.None? || vs.None? || cid.None? || ttl.None? {
      return None;
    }
    row := Some(Row(ts.value, key, ks.value % U32, vs.value % U32, cid.value, op, ttl.value));
  }

  /** Every column of a record holds a value its source type can represent. */
  predicate FitsColumns(r: Row)
  {
    r.timestamp < U64 && r.keySize < U32 && r.valueSize < U32 && r.clientId < U64 && r.ttl < U64
  }

  /** A line with fewer than seven tokens is rejected. */
  lemma TooFewFieldsRejected(line: string)
    requires |GetlineSplit(line, ',')| < 7
    ensures DecodeLine(line) == None
  {
  }

  /** Where each column of a decoded record comes from: the first token,
      the tokens between it and the last five, and the last five in order. */
  lemma DecodedColumns(fs: seq<string>, r: Row)
    requires DecodeFields(fs) == Some(r)
    ensures |fs| >= 7 && FitsColumns(r)
    ensures StoULL(fs[0]) == Some(r.timestamp)
    ensures r.key == Concat(fs[1..|fs| - 5])
    ensures exists ks :: StoULL(fs[|fs| - 5]) == Some(ks) && r.keySize == ks % U32
    ensures exists vs :: StoULL(fs[|fs| - 4]) == Some(vs) && r.valueSize == vs % U32
    ensures StoULL(fs[|fs| - 3]) == Some(r.clientId)
    ensures r.operation == fs[|fs| - 2]
    ensures StoULL(fs[|fs| - 1]) == Some(r.ttl)
  {
    var e := |fs| - 6;
    var ks := StoULL(fs[e + 1]).value;
    var vs := StoULL(fs[e + 2]).value;
    assert StoULL(fs[|fs| - 5]) == Some(ks) && r.keySize == ks % U32;
    assert StoULL(fs[|fs| - 4]) == Some(vs) && r.valueSize == vs % U32;
  }

  /** A line of exactly seven tokens has no comma inside its key: the key is
      the second token as it stands. */
  lemma SevenTokensKey(fs: seq<string>, r: Row)
    requires |fs| == 7 && DecodeFields(fs) == Some(r)
    ensures r.key == fs[1]
  {
    DecodedColumns(fs, r);
    assert fs[1..|fs| - 5] == [fs[1]];
    assert [fs[1]][..0] == [];
  }

  /** A decoded record holds no comma in its key or operation. */
  lemma DecodedRowIsClean(line: string, r: Row)
    requires DecodeLine(line) == Some(r)
    ensures FitsColumns(r)
    ensures ',' !in r.key && ',' !in r.operation
  {
    var fs := GetlineSplit(line, ',');
    forall i | 0 <= i < |fs| ensures ',' !in fs[i] {
      GetlineSplitNoDelim(line, ',', i);
    }
    DecodedFieldsClean(fs, r);
  }

  /** Tokens free of commas decode to a record free of commas. */
  lemma DecodedFieldsClean(fs: seq<string>, r: Row)
    requires DecodeFields(fs) == Some(r)
    requires forall i :: 0 <= i < |fs| ==> ',' !in fs[i]
    ensures FitsColumns(r)
    ensures ',' !in r.key && ',' !in r.operation
  {
    DecodedColumns(fs, r);
    var keyTokens := fs[1..|fs| - 5];
    forall i | 0 <= i < |keyTokens| ensures ',' !in keyTokens[i] {
      assert keyTokens[i] == fs[i + 1];
    }
    ConcatAvoids(keyTokens, ',');
  }

  /** Decoding a written record gives the record back, except that commas
      in its key are gone: the preprocessor's key repair. */
  lemma DecodeFormatRow(r: Row)
    requires FitsColumns(r) && ',' !in r.operation
    ensures DecodeLine(FormatRow(r)) == Some(r.(key := Remove(r.key, ',')))
  {
    var keyTokens := SplitAll(r.key, ',');
    GetlineSplitFormatRow(r);
    ConcatSplitAll(r.key, ',');
    StoULLOfNatToString(r.timestamp);
    StoULLOfNatToString(r.keySize);
    StoULLOfNatToString(r.valueSize);
    StoULLOfNatToString(r.clientId);
    StoULLOfNatToString(r.ttl);
    DecodeAssembled(NatToString(r.timestamp), keyTokens, NatToString(r.keySize),
                    NatToString(r.valueSize), NatToString(r.clientId), r.operation,
                    NatToString(r.ttl));
    DecodeColumnsOk(NatToString(r.timestamp), keyTokens, NatToString(r.keySize),
                    NatToString(r.valueSize), NatToString(r.clientId), r.operation,
                    NatToString(r.ttl), r.timestamp, r.keySize, r.valueSize, r.clientId, r.ttl);
    DivModSmall(r.keySize, U32);
    DivModSmall(r.valueSize, U32);
  }

  /** The columns decode when each numeric column converts. */
  lemma DecodeColumnsOk(ts: string, keyTokens: seq<string>, ks: string, vs: string,
                        cid: string, op: string, ttl: string,
                        t: nat, k: nat, v: nat, c: nat, l: nat)
    requires StoULL(ts) == Some(t) && StoULL(ks) == Some(k) && StoULL(vs) == Some(v)
    requires StoULL(cid) == Some(c) && StoULL(ttl) == Some(l)
    ensures DecodeColumns(ts, keyTokens, ks, vs, cid, op, ttl) ==
            Some(Row(t, Concat(keyTokens), k % U32, v % U32, c, op, l))
  {
  }

  /** Decoding a token list laid out as timestamp, key pieces and the last
      five columns. */
  lemma DecodeAssembled(ts: string, keyTokens: seq<string>, ks: string, vs: string,
                        cid: string, op: string, ttl: string)
    requires |keyTokens| >= 1
    ensures DecodeFields([ts] + keyTokens + [ks, vs, cid, op, ttl]) ==
            DecodeColumns(ts, keyTokens, ks, vs, cid, op, ttl)
  {
    var pre := [ts] + keyTokens;
    var post := [ks, vs, cid, op, ttl];
    var fs := pre + post;
    var e := |fs| - 6;
    assert e + 1 == |pre|;
    assert fs[0] == ts;
    assert fs[1..e + 1] == keyTokens;
    assert fs[e + 1] == post[0] && fs[e + 2] == post[1] && fs[e + 3] == post[2];
    assert fs[e + 4] == post[3] && fs[e + 5] == post[4];
  }

  /** A record without commas survives being written and read back intact. */
  lemma DecodeFormatRowClean(r: Row)
    requires FitsColumns(r) && ',' !in r.key && ',' !in r.operation
    ensures DecodeLine(FormatRow(r)) == Some(r)
  {
    DecodeFormatRow(r);
  }

  // ---------------------------------------------------------------------------
  // Filtering the file
  // ---------------------------------------------------------------------------

  /** The filter of `processCSV`: only get, gets and delete requests, and no
      read whose value size is zero. */
  predicate Keep(r: Row)
  {
    (r.operation == "get" || r.operation == "gets" || r.operation == "delete") &&
    !((r.operation == "get" || r.operation == "gets") && r.valueSize == 0)
  }

  /** The records written for the input lines, in input order. */
  function Preprocessed(lines: seq<string>): seq<Row>
  {
    if lines == [] then []
    else Preprocessed(lines[..|lines| - 1]) + Survivor(lines[|lines| - 1])
  }

  /** What one input line contributes: its record if it decodes and is
      kept, nothing otherwise. */
  function Survivor(line: string): (rs: seq<Row>)
    ensures |rs| <= 1
  {
    match DecodeLine(line)
    case Some(r) => if Keep(r) then [r] else []
    case None => []
  }

  /** `processCSV` over the lines of the input file: the lines of the output
      file. */
  method ProcessCSV(lines: seq<string>) returns (out: seq<string>)
    ensures out == FormatAll(Preprocessed(lines), FormatRow)
  {
    out := [];
    var i := 0;
    while i < |lines|
      invariant 0 <= i <= |lines|
      invariant out == FormatAll(Preprocessed(lines[..i]), FormatRow)
    {
      var kept := Preprocessed(lines[..i]);
      assert lines[..i + 1][..i] == lines[..i];
      assert Preprocessed(lines[..i + 1]) == kept + Survivor(lines[i]);
      var row := ParseLine(lines[i]);
      if row.None? {
        assert kept + Survivor(lines[i]) == kept;
      } else {
        var r := row.value;
        if r.operation != "get" && r.operation != "gets" && r.operation != "delete" {
          assert kept + Survivor(lines[i]) == kept;
        } else if (r.operation == "get" || r.operation == "gets") && r.valueSize == 0 {
          assert kept + Survivor(lines[i]) == kept;
        } else {
          assert Survivor(lines[i]) == [r];
          FormatAllSnoc(kept, r, FormatRow);
          out := out + [FormatRow(r)];
        }
      }
      i := i + 1;
    }
    assert lines[..i] == lines;
  }

  /** A record is kept exactly when it is a delete, or a get or gets with a
      non-empty value. */
  lemma KeepIff(r: Row)
    ensures Keep(r) <==>
            r.operation == "delete" ||
            ((r.operation == "get" || r.operation == "gets") && r.valueSize > 0)
  {
  }

  /** Lines are processed independently: the output for two files glued
      together is the two outputs glued together. So an unparseable or
      filtered line is skipped without affecting any other line, and the
      input order is kept. */
  lemma {:induction false} PreprocessedAppend(a: seq<string>, b: seq<string>)
    ensures Preprocessed(a + b) == Preprocessed(a) + Preprocessed(b)
    decreases |b|
  {
    if b == [] {
      assert a + b == a;
    } else {
      var b' := b[..|b| - 1];
      var x := b[|b| - 1];
      assert (a + b)[..|a + b| - 1] == a + b' && (a + b)[|a + b| - 1] == x;
      PreprocessedAppend(a, b');
      assert Preprocessed(a + b) == Preprocessed(a + b') + Survivor(x);
      assert Preprocessed(b) == Preprocessed(b') + Survivor(x);
    }
  }

  /** A record written for the earlier lines, or for the last line, is
      written for all of them. */
  lemma PreprocessedSnoc(lines: seq<string>, r: Row, earlier: bool)
    requires lines != []
    requires earlier ==> r in Preprocessed(lines[..|lines| - 1])
    requires !earlier ==> r in Survivor(lines[|lines| - 1])
    ensures r in Preprocessed(lines)
  {
  }

  lemma SurvivorOf(line: string, r: Row)
    requires DecodeLine(line) == Some(r)
    ensures Survivor(line) == if Keep(r) then [r] else []
  {
  }

  /** Every written record was decoded from some input line and passed
      the filter. */
  lemma {:induction false} PreprocessedFrom(lines: seq<string>, r: Row)
    requires r in Preprocessed(lines)
    ensures Keep(r) && exists i :: 0 <= i < |lines| && DecodeLine(lines[i]) == Some(r)
    decreases |lines|
  {
    var init := lines[..|lines| - 1];
    var last := lines[|lines| - 1];
    assert Preprocessed(lines) == Preprocessed(init) + Survivor(last);
    if r in Preprocessed(init) {
      PreprocessedFrom(init, r);
      var i :| 0 <= i < |init| && DecodeLine(init[i]) == Some(r);
      assert lines[i] == init[i];
    } else {
      assert r in Survivor(last);
      assert DecodeLine(lines[|lines| - 1]) == Some(r);
    }
  }

  /** Every input line that decodes to a record the filter keeps has that
      record written. */
  lemma PreprocessedKeeps(lines: seq<string>, i: nat, r: Row)
    requires i < |lines| && DecodeLine(lines[i]) == Some(r) && Keep(r)
    ensures r in Preprocessed(lines)
  {
    SurvivorOf(lines[i], r);
    SurvivorWritten(lines, i, r);
  }

  lemma {:induction false} SurvivorWritten(lines: seq<string>, i: nat, r: Row)
    requires i < |lines| && r in Survivor(lines[i])
    ensures r in Preprocessed(lines)
    decreases |lines|
  {
    if i == |lines| - 1 {
      PreprocessedSnoc(lines, r, false);
    } else {
      var init := lines[..|lines| - 1];
      assert init[i] == lines[i];
      SurvivorWritten(init, i, r);
      PreprocessedSnoc(lines, r, true);
    }
  }

  /** Preprocessing is idempotent: running the tool on its own output
      writes the same records again. */
  lemma {:induction false} PreprocessIdempotent(lines: seq<string>)
    ensures Preprocessed(FormatAll(Preprocessed(lines), FormatRow)) == Preprocessed(lines)
    decreases |lines|
  {
    if lines != [] {
      var init := lines[..|lines| - 1];
      var last := lines[|lines| - 1];
      var kept := Preprocessed(init);
      PreprocessIdempotent(init);
      assert Preprocessed(lines) == kept + Survivor(last);
      if Survivor(last) == [] {
        assert kept + [] == kept;
      } else {
        var r := DecodeLine(last).value;
        assert Survivor(last) == [r] && Keep(r);
        DecodedRowIsClean(last, r);
        DecodeFormatRowClean(r);
        FormatAllSnoc(kept, r, FormatRow);
        PreprocessedAppend(FormatAll(kept, FormatRow), [FormatRow(r)]);
        assert [FormatRow(r)][..0] == [];
        assert Preprocessed([FormatRow(r)]) == [] + Survivor(FormatRow(r));
        assert Survivor(FormatRow(r)) == [r];
      }
    }
  }

  // ---------------------------------------------------------------------------
  // Command line
  // ---------------------------------------------------------------------------

  /** `main`: exactly two arguments after the program name, the input file
      and the output file; otherwise the usage message and exit status 1. */
  function ParsePreprocessArgs(args: seq<string>): (r: Option<(string, string)>)
    ensures r.Some? <==> |args| == 2
    ensures r.Some? ==> r.value == (args[0], args[1])
  {
    if |args| != 2 then None else Some((args[0], args[1]))
  }
}
