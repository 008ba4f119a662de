/** The windowed line sampler (sampling.cpp): copies the header line, then
    writes one randomly chosen line out of every run of `n` data lines, and
    one out of the trailing shorter run if there is one. */
module Sampling {
  import opened Common
  import opened Windowing

  /** A legal output for the input lines: the header copied, then one line
      of each window of `n` data lines, in window order. An empty input
      gives an empty output. */
  ghost predicate IsSampledFile(out: seq<string>, lines: seq<string>, n: nat)
    requires n > 0
  {
    if lines == [] then out == []
    else out != [] && out[0] == lines[0] && IsSampleOf(out[1..], Windows(lines[1..], n))
  }

  /** `sampleTraceFile` over the lines of the input file; `out` is the
      lines of the output file. The random index is any index into the
      buffer. */
  method SampleTraceFile(lines: seq<string>, n: nat) returns (out: seq<string>)
    requires n > 0
    ensures IsSampledFile(out, lines, n)
  {
    out := [];
    if |lines| == 0 {
      return;
    }
    var header := lines[0];
    out := out + [header];
    var data := lines[1..];
    var buffer: seq<string> := [];
    ghost var done: seq<string> := [];
    var i := 0;
    while i < |data|
      invariant 0 <= i <= |data|
      invariant done + buffer == data[..i]
      invariant |done| % n == 0 && |buffer| < n
      invariant out != [] && out[0] == header
      invariant IsSampleOf(out[1..], Windows(done, n))
    {
      assert data[..i + 1] == data[..i] + [data[i]];
      buffer := buffer + [data[i]];
      if |buffer| == n {
        var randIdx :| 0 <= randIdx < n;
        SampleSnoc(out[1..], done, buffer, buffer[randIdx], n);
        assert (out + [buffer[randIdx]])[1..] == out[1..] + [buffer[randIdx]];
        out := out + [buffer[randIdx]];
        done := done + buffer;
        buffer := [];
      }
      i := i + 1;
    }
    assert data[..i] == data;
    if buffer != [] {
      var lastIdx :| 0 <= lastIdx < |buffer|;
      SampleSnoc(out[1..], done, buffer, buffer[lastIdx], n);
      assert (out + [buffer[lastIdx]])[1..] == out[1..] + [buffer[lastIdx]];
      out := out + [buffer[lastIdx]];
    } else {
      assert done == data;
    }
  }

  /** For k data lines the sampler writes the header and ceil(k / n) data
      lines. */
  lemma SampledCount(out: seq<string>, lines: seq<string>, n: nat)
    requires n > 0 && lines != [] && IsSampledFile(out, lines, n)
    ensures |out| == 1 + CeilDiv(|lines| - 1, n)
  {
    WindowsShape(lines[1..], n);
  }

  /** The data lines written form a subsequence of the data lines read:
      each comes from the input, and relative order is kept. */
  lemma SampledInOrder(out: seq<string>, lines: seq<string>, n: nat)
    requires n > 0 && lines != [] && IsSampledFile(out, lines, n)
    ensures IsSubsequence(out[1..], lines[1..])
    ensures forall l :: l in out[1..] ==> l in lines[1..]
  {
    SampleIsSubsequence(out[1..], lines[1..], n);
    SubsequenceMembers(out[1..], lines[1..]);
  }

  /** Data line `i` of the output (line i + 1) comes from data lines
      i*n .. i*n+n-1 of the input (lines 1 + i*n .. i*n + n). */
  lemma SampledFromWindow(out: seq<string>, lines: seq<string>, n: nat, i: nat)
    requires n > 0 && lines != [] && IsSampledFile(out, lines, n)
    requires i < |out| - 1
    ensures exists j :: 1 + i * n <= j <= i * n + n && j < |lines| && out[i + 1] == lines[j]
  {
    WindowsOffsets(lines[1..], n, i);
    var w := Windows(lines[1..], n)[i];
    assert out[1..][i] in w;
    var k :| 0 <= k < |w| && w[k] == out[i + 1];
    assert lines[1..][i * n + k] == lines[1 + i * n + k];
  }

  /** With windows of one line the sampler copies the whole file. */
  lemma SampleOfOneCopies(out: seq<string>, lines: seq<string>)
    requires IsSampledFile(out, lines, 1)
    ensures out == lines
  {
    if lines != [] {
      WindowOfOneKeepsAll(out[1..], lines[1..]);
      assert out == [out[0]] + out[1..];
      assert lines == [lines[0]] + lines[1..];
    }
  }

  // ---------------------------------------------------------------------------
  // Command line
  // ---------------------------------------------------------------------------

  datatype SampleConfig = SampleConfig(inputFile: string, outputFile: string, n: nat)

  datatype SampleArgError =
    | SampleUsage       // not exactly three arguments after the program name
    | SampleNotANumber  // std::stoi throws on n (uncaught: the run aborts)
    | SampleNotPositive // n is zero or negative

  /** `main`: exactly three arguments after the program name, the input
      file, the output file and a positive `n`. */
  function ParseSampleArgs(args: seq<string>): (r: Result<SampleConfig, SampleArgError>)
    ensures |args| != 3 ==> r == Failure(SampleUsage)
    ensures r.Success? <==> |args| == 3 && StoI(args[2]).Some? && StoI(args[2]).value > 0
    ensures r.Success? ==> r.value == SampleConfig(args[0], args[1], StoI(args[2]).value) && r.value.n > 0
  {
    if |args| != 3 then Failure(SampleUsage)
    else match StoI(args[2])
      case None => Failure(SampleNotANumber)
      case Some(n) =>
        if n <= 0 then Failure(SampleNotPositive)
        else Success(SampleConfig(args[0], args[1], n))
  }
}
