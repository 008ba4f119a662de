/** The row-count file splitter (split_trace.cpp).

    Rows of a five-column key trace are copied, in order, into numbered
    output files of at most `L` rows each. A new file is opened, and given
    the header line, whenever the count of rows written so far is a
    multiple of `L`; its number is that count divided by `L`. */
module SplitTrace {
  import opened Common
  import opened Windowing

  type UInt32 = n: nat | n < 0x1_0000_0000

  /** A decoded row of the input trace. */
  datatype Row = Row(key: string, op: string, size: UInt32, opCount: UInt32, keySize: UInt32)

  /** An output file: its path and its lines. */
  datatype OutputFile = OutputFile(name: string, lines: seq<string>)

  /** The five fields of a row, in header order. */
  function RowFields(r: Row): (fs: seq<string>)
    ensures |fs| == 5
  {
    [r.key, r.op, NatToString(r.size), NatToString(r.opCount), NatToString(r.keySize)]
  }

  /** A row as written: its five fields joined by commas. */
  function FormatRow(r: Row): string
  {
    Join(RowFields(r), ',')
  }

  /** `./<prefix>_<index>.csv` */
  function OutputName(prefix: string, index: nat): string
  {
    "./" + prefix + "_" + NatToString(index) + ".csv"
  }

  /** Output file number `index`, holding the rows of one window. */
  function ChunkFile(prefix: string, index: nat, w: seq<Row>): OutputFile
  {
    OutputFile(OutputName(prefix, index), [HEADER] + FormatAll(w, FormatRow))
  }

  /** The files the splitter leaves behind: file j holds the header and the
      j-th window of `L` consecutive rows. */
  function SplitFiles(rows: seq<Row>, L: nat, prefix: string): (files: seq<OutputFile>)
    requires L > 0
    ensures |files| == |Windows(rows, L)|
  {
    var ws := Windows(rows, L);
    seq(|ws|, j requires 0 <= j < |ws| => ChunkFile(prefix, j, ws[j]))
  }

  lemma SplitFilesSnoc(done: seq<Row>, w: seq<Row>, L: nat, prefix: string)
    requires L > 0 && |done| % L == 0 && 0 < |w| <= L
    ensures SplitFiles(done + w, L, prefix)
            == SplitFiles(done, L, prefix) + [ChunkFile(prefix, |Windows(done, L)|, w)]
  {
    WindowsSnoc(done, w, L);
  }

  /** Before a row whose index is a multiple of `L` every window written
      so far is full: there are exactly i / L of them. */
  lemma FullWindows(rows: seq<Row>, i: nat, L: nat)
    requires L > 0 && i <= |rows| && i % L == 0
    ensures |Windows(rows[..i], L)| == i / L
  {
    WindowsShape(rows[..i], L);
    DivModUnique(i, L, i / L, 0);
    DivModUnique(i + L - 1, L, i / L, L - 1);
  }

  /** Row i with i a multiple of `L` starts file i / L. */
  lemma StartStep(rows: seq<Row>, i: nat, L: nat, prefix: string)
    requires L > 0 && i < |rows| && i % L == 0
    ensures SplitFiles(rows[..i + 1], L, prefix)
            == SplitFiles(rows[..i], L, prefix) + [ChunkFile(prefix, i / L, [rows[i]])]
  {
    assert rows[..i + 1] == rows[..i] + [rows[i]];
    FullWindows(rows, i, L);
    SplitFilesSnoc(rows[..i], [rows[i]], L, prefix);
  }

  /** Any other row is appended to the last file. */
  lemma ContinueStep(rows: seq<Row>, i: nat, L: nat, prefix: string)
    requires L > 0 && i < |rows| && i % L != 0
    ensures var f := SplitFiles(rows[..i], L, prefix);
            |f| > 0 && SplitFiles(rows[..i + 1], L, prefix)
                       == f[|f| - 1 := f[|f| - 1].(lines := f[|f| - 1].lines + [FormatRow(rows[i])])]
  {
    var m := i % L;
    var j := i - m;
    assert j == (i / L) * L;
    DivModUnique(j, L, i / L, 0);
    var done, cur, r := rows[..j], rows[j..i], rows[i];
    assert rows[..i] == done + cur;
    assert rows[..i + 1] == done + (cur + [r]);
    var before := SplitFiles(done, L, prefix);
    var K := |Windows(done, L)|;
    SplitFilesSnoc(done, cur, L, prefix);
    SplitFilesSnoc(done, cur + [r], L, prefix);
    FormatAllSnoc(cur, r, FormatRow);
    var a, b := ChunkFile(prefix, K, cur), ChunkFile(prefix, K, cur + [r]);
    assert b == a.(lines := a.lines + [FormatRow(r)]);
    assert (before + [a])[|before| := b] == before + [b];
  }

  /** The read loop of `main`: `rows` are the rows the CSV reader yields,
      `L` the `--lines` option. Opening a file and writing the header is
      appending an output file holding the header; writing a row appends a
      line to the file opened last. */
  method SplitRows(rows: seq<Row>, L: UInt32, prefix: string)
    returns (files: seq<OutputFile>, numLines: nat)
    requires L > 0
    ensures numLines == |rows|
    ensures files == SplitFiles(rows, L, prefix)
  {
    files := [];
    numLines := 0;
    while numLines < |rows|
      invariant 0 <= numLines <= |rows|
      invariant files == SplitFiles(rows[..numLines], L, prefix)
    {
      var r := rows[numLines];
      if numLines % L == 0 {
        StartStep(rows, numLines, L, prefix);
        ghost var before := files;
        files := files + [OutputFile(OutputName(prefix, numLines / L), [HEADER])];
        files := files[|files| - 1 := files[|files| - 1].(lines := files[|files| - 1].lines + [FormatRow(r)])];
        assert FormatAll([r], FormatRow) == [FormatRow(r)];
        assert files == before + [ChunkFile(prefix, numLines / L, [r])];
      } else {
        ContinueStep(rows, numLines, L, prefix);
        files := files[|files| - 1 := files[|files| - 1].(lines := files[|files| - 1].lines + [FormatRow(r)])];
      }
      numLines := numLines + 1;
    }
    assert rows[..numLines] == rows;
  }

  // ---------------------------------------------------------------------------
  // Properties of the split
  // ---------------------------------------------------------------------------

  /** k rows make ceil(k / L) files; no rows make none. */
  lemma SplitCount(rows: seq<Row>, L: nat, prefix: string)
    requires L > 0
    ensures |SplitFiles(rows, L, prefix)| == CeilDiv(|rows|, L)
  {
    WindowsShape(rows, L);
  }

  /** File j is named with index j and starts with the header; every file
      but the last holds exactly L rows, the last between 1 and L. */
  lemma SplitFileShape(rows: seq<Row>, L: nat, prefix: string, j: nat)
    requires L > 0 && j < |SplitFiles(rows, L, prefix)|
    ensures var f := SplitFiles(rows, L, prefix)[j];
            f.name == OutputName(prefix, j) && f.lines[0] == HEADER
            && 2 <= |f.lines| <= L + 1
            && (j < |SplitFiles(rows, L, prefix)| - 1 ==> |f.lines| == L + 1)
  {
    WindowsShape(rows, L);
  }

  /** Row i (from 0) is line 1 + i % L of file i / L: rows keep their order,
      and a file is started exactly before rows 0, L, 2L, ... */
  lemma RowPlacement(rows: seq<Row>, L: nat, prefix: string, i: nat)
    requires L > 0 && i < |rows|
    ensures i / L < |SplitFiles(rows, L, prefix)|
    ensures 1 + i % L < |SplitFiles(rows, L, prefix)[i / L].lines|
    ensures SplitFiles(rows, L, prefix)[i / L].lines[1 + i % L] == FormatRow(rows[i])
  {
    WindowOfIndex(rows, L, i);
  }

  lemma DigitsHaveNoComma(s: string)
    requires AllDigits(s)
    ensures ',' !in s
  {
  }

  /** A written row splits back into its five fields, and the numeric ones
      read back as the row's values, provided the key and the operation hold
      no comma. */
  lemma FormatRowRoundTrip(r: Row)
    requires ',' !in r.key && ',' !in r.op
    ensures SplitAll(FormatRow(r), ',') == RowFields(r)
    ensures ParseNat(RowFields(r)[2]) == Some(r.size as nat)
    ensures ParseNat(RowFields(r)[3]) == Some(r.opCount as nat)
    ensures ParseNat(RowFields(r)[4]) == Some(r.keySize as nat)
  {
    var fs := RowFields(r);
    DigitsHaveNoComma(fs[2]);
    DigitsHaveNoComma(fs[3]);
    DigitsHaveNoComma(fs[4]);
    SplitAllJoin(fs, ',');
    ParseNatToString(r.size);
    ParseNatToString(r.opCount);
    ParseNatToString(r.keySize);
  }
}
