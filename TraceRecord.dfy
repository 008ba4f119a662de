/** The seven-column access-trace record shared by the preprocessor and the
    merger, and its on-disk form: timestamp, key, key_size, value_size,
    client_id, operation, TTL, comma-joined, one record per line. */
module TraceRecord {
  import opened Common

  /** One access-trace record. The source's fixed-width unsigned columns
      (64-bit timestamp, client id and TTL, 32-bit sizes) are natural numbers
      here. */
  datatype Row = Row(
    timestamp: nat,
    key: string,
    keySize: nat,
    valueSize: nat,
    clientId: nat,
    operation: string,
    ttl: nat)

  /** The seven columns of a record as text, in output order. */
  function Fields(r: Row): (fs: seq<string>)
    ensures |fs| == 7
  {
    [NatToString(r.timestamp), r.key, NatToString(r.keySize), NatToString(r.valueSize),
     NatToString(r.clientId), r.operation, NatToString(r.ttl)]
  }

  /** One output line (without its terminating newline). */
  function FormatRow(r: Row): string
  {
    Join(Fields(r), ',')
  }

  /** A written line splits back into exactly the seven columns, in order,
      when neither the key nor the operation holds a comma. */
  lemma FormatRowColumns(r: Row)
    requires ',' !in r.key && ',' !in r.operation
    ensures SplitAll(FormatRow(r), ',') == Fields(r)
  {
    var fs := Fields(r);
    forall i | 0 <= i < 7 ensures ',' !in fs[i] {
      if i != 1 && i != 5 {
        assert AllDigits(fs[i]);
      }
    }
    SplitAllJoin(fs, ',');
  }

  /** A written line splits into the timestamp, the pieces of the key
      between its commas, and the five remaining columns. */
  lemma SplitFormatRow(r: Row)
    requires ',' !in r.operation
    ensures SplitAll(FormatRow(r), ',') ==
            [NatToString(r.timestamp)] + SplitAll(r.key, ',') +
            [NatToString(r.keySize), NatToString(r.valueSize), NatToString(r.clientId),
             r.operation, NatToString(r.ttl)]
  {
    var fs := Fields(r);
    NumericColumnsNoComma(r);
    SplitJoinTail(fs, 7);
    assert fs[..7] == fs;
    SplitJoinStep(fs, 2);
    assert fs[..1] == [fs[0]];
    assert Join(fs[..1], ',') == fs[0];
    SplitAllNoDelim(fs[0], ',');
    assert fs[2..7] == [fs[2], fs[3], fs[4], fs[5], fs[6]];
  }

  /** The number columns are digits only, so hold no comma; past the key
      only the operation could, and it does not. */
  lemma NumericColumnsNoComma(r: Row)
    requires ',' !in r.operation
    ensures ',' !in Fields(r)[0]
    ensures forall i :: 2 <= i < 7 ==> ',' !in Fields(r)[i]
  {
    var fs := Fields(r);
    forall i | 0 <= i < 7 && i != 1 && i != 5 ensures ',' !in fs[i] {
      assert AllDigits(fs[i]);
    }
  }

  /** The tokens `std::getline` reads from a written line: the same pieces,
      since the line ends in a digit of the TTL. */
  lemma GetlineSplitFormatRow(r: Row)
    requires ',' !in r.operation
    ensures GetlineSplit(FormatRow(r), ',') ==
            [NatToString(r.timestamp)] + SplitAll(r.key, ',') +
            [NatToString(r.keySize), NatToString(r.valueSize), NatToString(r.clientId),
             r.operation, NatToString(r.ttl)]
  {
    var tokens := [NatToString(r.timestamp)] + SplitAll(r.key, ',') +
                  [NatToString(r.keySize), NatToString(r.valueSize), NatToString(r.clientId),
                   r.operation, NatToString(r.ttl)];
    SplitFormatRow(r);
    assert tokens[|tokens| - 1] == NatToString(r.ttl);
  }

  /** Past the key, each further column adds exactly one piece. */
  lemma {:induction false} SplitJoinTail(fs: seq<string>, k: nat)
    requires 2 <= k <= |fs|
    requires forall i :: 2 <= i < |fs| ==> ',' !in fs[i]
    ensures SplitAll(Join(fs[..k], ','), ',') == SplitAll(Join(fs[..2], ','), ',') + fs[2..k]
    decreases k
  {
    if k > 2 {
      SplitJoinTail(fs, k - 1);
      SplitJoinStep(fs, k);
      SplitAllNoDelim(fs[k - 1], ',');
      assert fs[2..k] == fs[2..k - 1] + [fs[k - 1]];
    }
  }

  lemma SplitJoinStep(fs: seq<string>, k: nat)
    requires 2 <= k <= |fs|
    ensures SplitAll(Join(fs[..k], ','), ',') ==
            SplitAll(Join(fs[..k - 1], ','), ',') + SplitAll(fs[k - 1], ',')
  {
    assert fs[..k][..k - 1] == fs[..k - 1];
    SplitAllAround(Join(fs[..k - 1], ','), ',', fs[k - 1]);
  }
}
