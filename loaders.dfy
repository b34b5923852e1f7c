/**
 * The four ledger loaders. Each walks the rows with a position counter,
 * skips row 0 (the header), parses every later row with its file kind's row
 * parser and updates its result in place; the first row that does not parse
 * panics and nothing is returned. Each is proved to build exactly what the
 * matching function of Aggregates computes from the parsed entries.
 */
module Loaders {
  import opened LedgerRows
  import opened Aggregates

  /**
   * loadFilesForValidator2: per-address totals; address from column 0,
   * amount from column 2.
   */
  method LoadValidatorTotals(rows: seq<Row>, h: string -> Address) returns (r: Outcome<map<Address, int>>)
    ensures r == match ParseRows(DataRows(rows), ValidatorTotalParser(h))
                 case Panic(f) => Panic(f)
                 case Ok(ps) => Ok(SumByAddress(ps))
  {
    var result: map<Address, int> := map[];
    ghost var entries: seq<Payout> := [];
    var pos := 0;
    while pos < |rows|
      invariant pos <= |rows|
      invariant ReadUpTo(rows, pos, ValidatorTotalParser(h)) == Ok(entries)
      invariant result == SumByAddress(entries)
    {
      if pos > 0 {
        var parsed := ValidatorTotalParser(h)(rows[pos]);
        ReadUpToStep(rows, pos, ValidatorTotalParser(h), entries);
        if parsed.Panic? {
          return Panic(parsed.fault);
        }
        SumByAddressExtend(entries, parsed.value);
        result := Credit(result, parsed.value);
        entries := entries + [parsed.value];
      }
      pos := pos + 1;
    }
    ReadUpToEnd(rows, ValidatorTotalParser(h));
    return Ok(result);
  }

  /** Two lists of equal length read as one list of entries. */
  function Pairs(tos: seq<Address>, amounts: seq<int>): (ps: seq<Payout>)
    requires |tos| == |amounts|
    ensures |ps| == |tos|
    ensures forall i :: 0 <= i < |ps| ==> ps[i] == Payout(tos[i], amounts[i])
  {
    seq(|tos|, i requires 0 <= i < |tos| => Payout(tos[i], amounts[i]))
  }

  /** Appending to both lists appends one entry. */
  lemma PairsExtend(tos: seq<Address>, amounts: seq<int>, p: Payout)
    requires |tos| == |amounts|
    ensures Pairs(tos + [p.to], amounts + [p.amount]) == Pairs(tos, amounts) + [p]
  {
  }

  /**
   * loadFilesForVoter2: two parallel lists in file order; address from
   * column 2, amount from column 4.
   */
  method LoadVoterPayouts(rows: seq<Row>, h: string -> Address)
    returns (r: Outcome<(seq<Address>, seq<int>)>)
    ensures r.Ok? <==> ParseRows(DataRows(rows), VoterPayoutParser(h)).Ok?
    ensures r.Ok? ==> |r.value.0| == |r.value.1| &&
                      ParseRows(DataRows(rows), VoterPayoutParser(h)) == Ok(Pairs(r.value.0, r.value.1))
    ensures r.Panic? ==> ParseRows(DataRows(rows), VoterPayoutParser(h)) == Panic(r.fault)
  {
    var result0: seq<Address>, result1: seq<int> := [], [];
    ghost var entries: seq<Payout> := [];
    var pos := 0;
    while pos < |rows|
      invariant pos <= |rows|
      invariant ReadUpTo(rows, pos, VoterPayoutParser(h)) == Ok(entries)
      invariant |result0| == |result1| && entries == Pairs(result0, result1)
    {
      if pos > 0 {
        var parsed := VoterPayoutParser(h)(rows[pos]);
        ReadUpToStep(rows, pos, VoterPayoutParser(h), entries);
        if parsed.Panic? {
          return Panic(parsed.fault);
        }
        PairsExtend(result0, result1, parsed.value);
        result0 := result0 + [parsed.value.to];
        result1 := result1 + [parsed.value.amount];
        entries := entries + [parsed.value];
      }
      pos := pos + 1;
    }
    ReadUpToEnd(rows, VoterPayoutParser(h));
    return Ok((result0, result1));
  }

  /**
   * The voter lists as the file holds them: equally long, one entry per data
   * row, entry i taken from columns 2 and 4 of row i + 1.
   */
  lemma VoterPayoutsInFileOrder(rows: seq<Row>, h: string -> Address, tos: seq<Address>, amounts: seq<int>)
    requires |tos| == |amounts|
    requires ParseRows(DataRows(rows), VoterPayoutParser(h)) == Ok(Pairs(tos, amounts))
    ensures |tos| == |amounts| == |DataRows(rows)|
    ensures forall i :: 0 <= i < |tos| ==> VoterPayoutRow(rows[i + 1], h) == Ok(Payout(tos[i], amounts[i]))
  {
    ParseRowsOk(DataRows(rows), VoterPayoutParser(h));
    forall i | 0 <= i < |tos| ensures VoterPayoutRow(rows[i + 1], h) == Ok(Payout(tos[i], amounts[i])) {
      assert VoterPayoutParser(h)(DataRows(rows)[i]).Ok?;
      assert Pairs(tos, amounts)[i] == Payout(tos[i], amounts[i]);
    }
  }

  /**
   * loadFilesForValidator: a map to both amounts of each validator's row; a
   * repeated address panics with "validator file wrong" as soon as it is read.
   */
  method LoadValidatorInfos(rows: seq<Row>, h: string -> Address)
    returns (r: Outcome<map<Address, ValidatorInfo>>)
    ensures r == ReadValidatorInfos(DataRows(rows), h)
  {
    var result: map<Address, ValidatorInfo> := map[];
    var pos := 0;
    while pos < |rows|
      invariant pos <= |rows|
      invariant ReadValidatorInfos(DataRows(rows[..pos]), h) == Ok(result)
    {
      if pos > 0 {
        DataRowsExtend(rows, pos);
        ReadValidatorInfosExtend(DataRows(rows[..pos]), rows[pos], h);
        DataRowsSplit(rows, pos);
        var parsed := ValidatorInfoRow(rows[pos], h);
        if parsed.Panic? {
          ReadValidatorInfosPersists(DataRows(rows[..pos + 1]), rows[pos + 1..], h);
          return Panic(parsed.fault);
        }
        var addr, info := parsed.value.addr, parsed.value.info;
        if addr in result {
          ReadValidatorInfosPersists(DataRows(rows[..pos + 1]), rows[pos + 1..], h);
          return Panic(DuplicateValidator);
        }
        result := result[addr := info];
      }
      pos := pos + 1;
    }
    assert rows[..pos] == rows;
    return Ok(result);
  }

  /**
   * loadFilesForVoter: votes grouped by the validator in column 1, each group
   * a list of (column 2 address, column 4 amount) in file order.
   */
  method LoadVoteGroups(rows: seq<Row>, h: string -> Address)
    returns (r: Outcome<map<Address, seq<VoterInfo>>>)
    ensures r == match ParseRows(DataRows(rows), VoteParser(h))
                 case Panic(f) => Panic(f)
                 case Ok(vs) => Ok(GroupByValidator(vs))
  {
    var result: map<Address, seq<VoterInfo>> := map[];
    ghost var votes: seq<VoteRecord> := [];
    var pos := 0;
    while pos < |rows|
      invariant pos <= |rows|
      invariant ReadUpTo(rows, pos, VoteParser(h)) == Ok(votes)
      invariant result == GroupByValidator(votes)
    {
      if pos > 0 {
        var parsed := VoteParser(h)(rows[pos]);
        ReadUpToStep(rows, pos, VoteParser(h), votes);
        if parsed.Panic? {
          return Panic(parsed.fault);
        }
        GroupByValidatorExtend(votes, parsed.value);
        result := File(result, parsed.value);
        votes := votes + [parsed.value];
      }
      pos := pos + 1;
    }
    ReadUpToEnd(rows, VoteParser(h));
    return Ok(result);
  }
}
