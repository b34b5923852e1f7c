/**
 * The decisions the payout tests make over the loaded ledgers: what is summed,
 * which entries would be paid, and which validators are reported as not
 * matching their voters. Transfers, balance queries, pacing and printing are
 * not performed; the transfers that would be issued and the values that would
 * be printed are returned instead.
 */
module Batches {
  import opened BigIntText
  import opened LedgerRows
  import opened Aggregates
  import opened Loaders

  /** The reserved address (`addr0`) whose entries are counted but never paid. */
  const ReservedAddressHex := "0xc052261da7602245558b297c587a8545e67d1109"

  // ---------------------------------------------------------------------------
  // The skip rule, as reference definitions over the voter entries.

  /** How many entries go to the reserved address. */
  function ReservedCount(ps: seq<Payout>, addr0: Address): nat
  {
    if ps == [] then 0
    else ReservedCount(ps[..|ps| - 1], addr0) + (if ps[|ps| - 1].to == addr0 then 1 else 0)
  }

  /** The entries to any other address, in order. */
  function Others(ps: seq<Payout>, addr0: Address): seq<Payout>
  {
    if ps == [] then []
    else Others(ps[..|ps| - 1], addr0) + (if ps[|ps| - 1].to != addr0 then [ps[|ps| - 1]] else [])
  }

  /** The entries that would be paid: to another address and with a positive amount, in order. */
  function Payable(ps: seq<Payout>, addr0: Address): seq<Payout>
  {
    if ps == [] then []
    else
      var p := ps[|ps| - 1];
      Payable(ps[..|ps| - 1], addr0) + (if p.to != addr0 && p.amount > 0 then [p] else [])
  }

  /** Every entry is either reserved or another one: the two counts add up to the number of entries. */
  lemma {:induction false} CountsPartition(ps: seq<Payout>, addr0: Address)
    ensures ReservedCount(ps, addr0) + |Others(ps, addr0)| == |ps|
  {
    if ps != [] {
      CountsPartition(ps[..|ps| - 1], addr0);
    }
  }

  /** The reserved entries' amounts and the other entries' amounts add up to the total. */
  lemma {:induction false} TotalsPartition(ps: seq<Payout>, addr0: Address)
    ensures AmountTo(ps, addr0) + Total(Others(ps, addr0)) == Total(ps)
  {
    if ps != [] {
      var init := ps[..|ps| - 1];
      var p := ps[|ps| - 1];
      TotalsPartition(init, addr0);
      if p.to != addr0 {
        assert (Others(init, addr0) + [p])[..|Others(init, addr0)|] == Others(init, addr0);
      } else {
        assert Others(init, addr0) + [] == Others(init, addr0);
      }
    }
  }

  /** An entry is paid exactly when it is one of the entries, is not reserved and has a positive amount. */
  lemma {:induction false} PayableExactly(ps: seq<Payout>, addr0: Address)
    ensures forall p :: p in Payable(ps, addr0) <==> p in ps && p.to != addr0 && p.amount > 0
  {
    if ps != [] {
      var init := ps[..|ps| - 1];
      PayableExactly(init, addr0);
      assert ps == init + [ps[|ps| - 1]];
    }
  }

  /**
   * Zero amounts are summed but not paid, which changes nothing: when no
   * amount is negative, what is paid adds up to the reported sum.
   */
  lemma {:induction false} PaidMatchesSum(ps: seq<Payout>, addr0: Address)
    requires forall i :: 0 <= i < |ps| ==> ps[i].amount >= 0
    ensures Total(Payable(ps, addr0)) == Total(Others(ps, addr0))
  {
    if ps != [] {
      var init := ps[..|ps| - 1];
      var p := ps[|ps| - 1];
      PaidMatchesSum(init, addr0);
      var pay, oth := Payable(init, addr0), Others(init, addr0);
      assert (pay + [p])[..|pay|] == pay;
      assert (oth + [p])[..|oth|] == oth;
      assert pay + [] == pay;
      assert oth + [] == oth;
    }
  }

  /** A negative amount is summed but never paid, so the reported sum and the payments then differ. */
  lemma NegativeAmountNotPaid(a: Address, addr0: Address)
    requires a != addr0
    ensures Total(Payable([Payout(a, -1)], addr0)) == 0 != Total(Others([Payout(a, -1)], addr0))
  {
  }

  /** One more entry of the voter list: how each running quantity of the loops moves. */
  lemma VoterStep(ps: seq<Payout>, i: nat, addr0: Address)
    requires i < |ps|
    ensures Total(ps[..i + 1]) == Total(ps[..i]) + ps[i].amount
    ensures AmountTo(ps[..i + 1], addr0) == AmountTo(ps[..i], addr0) + (if ps[i].to == addr0 then ps[i].amount else 0)
    ensures ReservedCount(ps[..i + 1], addr0) == ReservedCount(ps[..i], addr0) + (if ps[i].to == addr0 then 1 else 0)
    ensures Total(Others(ps[..i + 1], addr0)) ==
              Total(Others(ps[..i], addr0)) + (if ps[i].to != addr0 then ps[i].amount else 0)
    ensures Payable(ps[..i + 1], addr0) ==
              Payable(ps[..i], addr0) + (if ps[i].to != addr0 && ps[i].amount > 0 then [ps[i]] else [])
  {
    assert ps[..i + 1][..i] == ps[..i];
    TotalAppend(Others(ps[..i], addr0), if ps[i].to != addr0 then [ps[i]] else []);
  }

  // ---------------------------------------------------------------------------
  // TestBatchVoters

  datatype VoterBatch = VoterBatch(sum: int, count: nat, count2: nat, sent: seq<Payout>)

  /**
   * The loop of TestBatchVoters over the loaded lists: entries to the
   * reserved address are only counted; every other entry is added to the sum,
   * and a transfer is issued for it only when its amount is positive.
   */
  method BatchVoters(voters: seq<Address>, voterValue: seq<int>, addr0: Address) returns (b: VoterBatch)
    requires |voters| == |voterValue|
    ensures b.sent == Payable(Pairs(voters, voterValue), addr0)
    ensures b.sum == Total(Others(Pairs(voters, voterValue), addr0))
    ensures b.count == ReservedCount(Pairs(voters, voterValue), addr0)
    ensures b.count2 == |b.sent|
    ensures b.count + |Others(Pairs(voters, voterValue), addr0)| == |voters|
  {
    ghost var ps := Pairs(voters, voterValue);
    var sum, count, count2 := 0, 0, 0;
    var sent: seq<Payout> := [];
    var i := 0;
    while i < |voters|
      invariant i <= |voters|
      invariant sum == Total(Others(ps[..i], addr0))
      invariant count == ReservedCount(ps[..i], addr0)
      invariant sent == Payable(ps[..i], addr0)
      invariant count2 == |sent|
    {
      VoterStep(ps, i, addr0);
      var to, balance := voters[i], voterValue[i];
      if to == addr0 {
        count := count + 1;
      } else {
        sum := sum + balance;
        if balance > 0 {
          count2 := count2 + 1;
          sent := sent + [Payout(to, balance)];
        }
      }
      i := i + 1;
    }
    assert ps[..i] == ps;
    CountsPartition(ps, addr0);
    return VoterBatch(sum, count, count2, sent);
  }

  /** TestBatchVoters: loads the voter-payout file, then runs the batch over it with the reserved address. */
  method TestBatchVoters(voterRows: seq<Row>, h: string -> Address) returns (r: Outcome<VoterBatch>)
    ensures r.Ok? <==> ParseRows(DataRows(voterRows), VoterPayoutParser(h)).Ok?
    ensures r.Panic? ==> ParseRows(DataRows(voterRows), VoterPayoutParser(h)) == Panic(r.fault)
    ensures r.Ok? ==>
              var ps := ParseRows(DataRows(voterRows), VoterPayoutParser(h)).value;
              var addr0 := h(ReservedAddressHex);
              && r.value.sent == Payable(ps, addr0)
              && r.value.sum == Total(Others(ps, addr0))
              && r.value.count == ReservedCount(ps, addr0)
              && r.value.count2 == |r.value.sent|
              && r.value.count + |Others(ps, addr0)| == |ps|
  {
    var loaded := LoadVoterPayouts(voterRows, h);
    if loaded.Panic? {
      return Panic(loaded.fault);
    }
    var addr0 := h(ReservedAddressHex);
    var b := BatchVoters(loaded.value.0, loaded.value.1, addr0);
    return Ok(b);
  }

  // ---------------------------------------------------------------------------
  // TestBatchTransaction

  /** The values TestBatchTransaction prints: sum0, sum1, sum2, "sum" and "sum3". */
  datatype TransactionTotals = TransactionTotals(sum0: int, sum1: int, sum2: int, sum: int, sum3: int)

  /**
   * TestBatchTransaction: the validator totals summed over the map (in
   * whatever order the map is visited), the voter amounts summed in file
   * order, the reserved address's share of them, their grand total and what is
   * left for the other addresses.
   */
  method TestBatchTransaction(validatorRows: seq<Row>, voterRows: seq<Row>, h: string -> Address)
    returns (r: Outcome<TransactionTotals>)
    ensures var vr := ParseRows(DataRows(validatorRows), ValidatorTotalParser(h));
            var vo := ParseRows(DataRows(voterRows), VoterPayoutParser(h));
            && (r.Ok? <==> vr.Ok? && vo.Ok?)
            && (r.Panic? ==> if vr.Panic? then r.fault == vr.fault else vo == Panic(r.fault))
            && (r.Ok? ==>
                  var addr0 := h(ReservedAddressHex);
                  && r.value.sum0 == Total(vr.value)
                  && r.value.sum1 == Total(vo.value)
                  && r.value.sum2 == AmountTo(vo.value, addr0)
                  && r.value.sum == r.value.sum0 + r.value.sum1
                  && r.value.sum3 == Total(Others(vo.value, addr0)))
  {
    var validators := LoadValidatorTotals(validatorRows, h);
    if validators.Panic? {
      return Panic(validators.fault);
    }
    var sum0 := SumValues(validators.value);
    SumByAddressConserves(ParseRows(DataRows(validatorRows), ValidatorTotalParser(h)).value);
    var loaded := LoadVoterPayouts(voterRows, h);
    if loaded.Panic? {
      return Panic(loaded.fault);
    }
    var addr0 := h(ReservedAddressHex);
    var sum1, sum2 := SumVoterAmounts(loaded.value.0, loaded.value.1, addr0);
    TotalsPartition(Pairs(loaded.value.0, loaded.value.1), addr0);
    return Ok(TransactionTotals(sum0, sum1, sum2, sum0 + sum1, sum1 - sum2));
  }

  /** The first loop of TestBatchTransaction: the map's values added up in whatever order the map is visited. */
  method SumValues(m: map<Address, int>) returns (sum0: int)
    ensures sum0 == MapSum(m)
  {
    sum0 := 0;
    var remaining := m.Keys;
    while remaining != {}
      invariant remaining <= m.Keys
      invariant sum0 + KeySum(m, remaining) == MapSum(m)
      decreases remaining
    {
      var k :| k in remaining;
      KeySumRemove(m, remaining, k);
      sum0 := sum0 + m[k];
      remaining := remaining - {k};
    }
  }

  /** The second loop of TestBatchTransaction: all voter amounts, and those to the reserved address. */
  method SumVoterAmounts(voters: seq<Address>, voterValue: seq<int>, addr0: Address) returns (sum1: int, sum2: int)
    requires |voters| == |voterValue|
    ensures sum1 == Total(Pairs(voters, voterValue))
    ensures sum2 == AmountTo(Pairs(voters, voterValue), addr0)
  {
    ghost var ps := Pairs(voters, voterValue);
    sum1, sum2 := 0, 0;
    var i := 0;
    while i < |voters|
      invariant i <= |voters|
      invariant sum1 == Total(ps[..i])
      invariant sum2 == AmountTo(ps[..i], addr0)
    {
      VoterStep(ps, i, addr0);
      sum1 := sum1 + voterValue[i];
      if voters[i] == addr0 {
        sum2 := sum2 + voterValue[i];
      }
      i := i + 1;
    }
    assert ps[..i] == ps;
  }

  // ---------------------------------------------------------------------------
  // TestBatchValidators

  datatype ValidatorBatch = ValidatorBatch(sum: int, sent: seq<Payout>)

  /**
   * The loop of TestBatchValidators over the summed map: one transfer per
   * address, of that address's total (zero and negative totals included), in
   * whatever order the map is visited; the sum of what is sent is reported.
   */
  method BatchValidators(m: map<Address, int>) returns (b: ValidatorBatch)
    ensures b.sum == MapSum(m)
    ensures |b.sent| == |m.Keys|
    ensures forall a :: a in m <==> exists i :: 0 <= i < |b.sent| && b.sent[i].to == a
    ensures forall i :: 0 <= i < |b.sent| ==> b.sent[i].to in m && b.sent[i].amount == m[b.sent[i].to]
    ensures forall i, j :: 0 <= i < j < |b.sent| ==> b.sent[i].to != b.sent[j].to
  {
    var sum := 0;
    var sent: seq<Payout> := [];
    var remaining := m.Keys;
    while remaining != {}
      invariant sum + KeySum(m, remaining) == MapSum(m)
      invariant SentSoFar(m, sent, remaining)
      decreases remaining
    {
      var to :| to in remaining;
      KeySumRemove(m, remaining, to);
      SentSoFarStep(m, sent, remaining, to);
      var balance := m[to];
      sum := sum + balance;
      sent := sent + [Payout(to, balance)];
      remaining := remaining - {to};
    }
    assert m.Keys - remaining == m.Keys;
    return ValidatorBatch(sum, sent);
  }

  /**
   * The transfers made so far: one per visited address of m, of that
   * address's total, no address twice and none still to be visited.
   */
  ghost predicate SentSoFar(m: map<Address, int>, sent: seq<Payout>, remaining: set<Address>)
  {
    && remaining <= m.Keys
    && |sent| + |remaining| == |m.Keys|
    && (forall a :: a in m.Keys - remaining <==> exists i :: 0 <= i < |sent| && sent[i].to == a)
    && (forall i :: 0 <= i < |sent| ==> sent[i].to in m && sent[i].to !in remaining && sent[i].amount == m[sent[i].to])
    && (forall i, j :: 0 <= i < j < |sent| ==> sent[i].to != sent[j].to)
  }

  /** Visiting one more address keeps SentSoFar. */
  lemma SentSoFarStep(m: map<Address, int>, sent: seq<Payout>, remaining: set<Address>, to: Address)
    requires SentSoFar(m, sent, remaining)
    requires to in remaining
    ensures SentSoFar(m, sent + [Payout(to, m[to])], remaining - {to})
  {
    var sent' := sent + [Payout(to, m[to])];
    forall a | a in m.Keys - (remaining - {to}) ensures exists i :: 0 <= i < |sent'| && sent'[i].to == a {
      if a == to {
        assert sent'[|sent|].to == a;
      } else {
        assert a in m.Keys - remaining;
        var i :| 0 <= i < |sent| && sent[i].to == a;
        assert sent'[i].to == a;
      }
    }
  }

  /** TestBatchValidators: loads the validator-total file, then sends each address its total. */
  method TestBatchValidators(validatorRows: seq<Row>, h: string -> Address) returns (r: Outcome<ValidatorBatch>)
    ensures var vr := ParseRows(DataRows(validatorRows), ValidatorTotalParser(h));
            && (r.Ok? <==> vr.Ok?)
            && (r.Panic? ==> vr == Panic(r.fault))
            && (r.Ok? ==>
                  && r.value.sum == Total(vr.value)
                  && (forall a :: a in Addresses(vr.value) <==>
                                    exists i :: 0 <= i < |r.value.sent| && r.value.sent[i].to == a)
                  && (forall i :: 0 <= i < |r.value.sent| ==>
                                    r.value.sent[i].amount == AmountTo(vr.value, r.value.sent[i].to))
                  && (forall i, j :: 0 <= i < j < |r.value.sent| ==> r.value.sent[i].to != r.value.sent[j].to))
  {
    var validators := LoadValidatorTotals(validatorRows, h);
    if validators.Panic? {
      return Panic(validators.fault);
    }
    ghost var entries := ParseRows(DataRows(validatorRows), ValidatorTotalParser(h)).value;
    var b := BatchValidators(validators.value);
    SumByAddressConserves(entries);
    SumByAddressKeys(entries);
    forall i | 0 <= i < |b.sent| ensures b.sent[i].amount == AmountTo(entries, b.sent[i].to) {
      SumByAddressAt(entries, b.sent[i].to);
    }
    return Ok(b);
  }

  // ---------------------------------------------------------------------------
  // TestCheckTheCsvData

  /** One printed line: a validator, the sum of its voters (sum0) and its declared value2 (sum1). */
  datatype Mismatch = Mismatch(validator: Address, sum0: int, sum1: int)

  /** The line is one the reconciliation must print: the validator's voters do not add up to its value2. */
  predicate IsMismatch(d: Mismatch, validators: map<Address, ValidatorInfo>, voters: map<Address, seq<VoterInfo>>)
  {
    && d.validator in validators && d.validator in voters
    && d.sum0 == GroupTotal(voters[d.validator])
    && d.sum1 == validators[d.validator].value2
    && d.sum0 != d.sum1
  }

  /** The validators whose voter group exists and does not add up to their value2. */
  function Mismatched(validators: map<Address, ValidatorInfo>, voters: map<Address, seq<VoterInfo>>): set<Address>
  {
    set k | k in validators && k in voters && GroupTotal(voters[k]) != validators[k].value2
  }

  /**
   * The reconciliation loop of TestCheckTheCsvData: every validator is
   * visited once, in whatever order the map is visited; one with no voter group
   * panics; one whose voters' amounts do not add up to its value2 is printed;
   * a matching one prints nothing.
   */
  method Reconcile(validators: map<Address, ValidatorInfo>, voters: map<Address, seq<VoterInfo>>)
    returns (printed: seq<Mismatch>, fault: Option<Fault>)
    ensures fault.None? <==> validators.Keys <= voters.Keys
    ensures fault.Some? ==> fault.value == MissingVoterGroup
    ensures forall i :: 0 <= i < |printed| ==> IsMismatch(printed[i], validators, voters)
    ensures forall i, j :: 0 <= i < j < |printed| ==> printed[i].validator != printed[j].validator
    ensures fault.None? ==>
              forall k :: k in Mismatched(validators, voters) <==>
                            exists i :: 0 <= i < |printed| && printed[i].validator == k
  {
    printed := [];
    var remaining := validators.Keys;
    while remaining != {}
      invariant PrintedSoFar(validators, voters, printed, remaining)
      decreases remaining
    {
      var k :| k in remaining;
      if k !in voters {
        return printed, Some(MissingVoterGroup);
      }
      var sum0 := SumGroup(voters[k]);
      PrintedSoFarStep(validators, voters, printed, remaining, k);
      if sum0 != validators[k].value2 {
        printed := printed + [Mismatch(k, sum0, validators[k].value2)];
      }
      remaining := remaining - {k};
    }
    return printed, None;
  }

  /** The inner loop of TestCheckTheCsvData: the sum of one group's voter amounts. */
  method SumGroup(vv: seq<VoterInfo>) returns (sum0: int)
    ensures sum0 == GroupTotal(vv)
  {
    sum0 := 0;
    var j := 0;
    while j < |vv|
      invariant j <= |vv|
      invariant sum0 == GroupTotal(vv[..j])
    {
      assert vv[..j + 1][..j] == vv[..j];
      sum0 := sum0 + vv[j].value;
      j := j + 1;
    }
    assert vv[..j] == vv;
  }

  /**
   * The reconciliation so far: every visited validator has a voter group,
   * every printed line is a true mismatch of a visited validator, none twice,
   * and every visited mismatched validator has been printed.
   */
  ghost predicate PrintedSoFar(validators: map<Address, ValidatorInfo>, voters: map<Address, seq<VoterInfo>>,
                               printed: seq<Mismatch>, remaining: set<Address>)
  {
    && remaining <= validators.Keys
    && (forall k :: k in validators && k !in remaining ==> k in voters)
    && (forall i :: 0 <= i < |printed| ==>
          IsMismatch(printed[i], validators, voters) && printed[i].validator !in remaining)
    && (forall i, j :: 0 <= i < j < |printed| ==> printed[i].validator != printed[j].validator)
    && (forall k :: k in Mismatched(validators, voters) && k !in remaining ==>
          exists i :: 0 <= i < |printed| && printed[i].validator == k)
  }

  /** Visiting a validator that has a voter group keeps PrintedSoFar, whether or not it is printed. */
  lemma PrintedSoFarStep(validators: map<Address, ValidatorInfo>, voters: map<Address, seq<VoterInfo>>,
                         printed: seq<Mismatch>, remaining: set<Address>, k: Address)
    requires PrintedSoFar(validators, voters, printed, remaining)
    requires k in remaining && k in voters
    ensures var sum0 := GroupTotal(voters[k]);
            var printed' := if sum0 != validators[k].value2 then printed + [Mismatch(k, sum0, validators[k].value2)]
                            else printed;
            PrintedSoFar(validators, voters, printed', remaining - {k})
  {
    var sum0 := GroupTotal(voters[k]);
    var printed' := if sum0 != validators[k].value2 then printed + [Mismatch(k, sum0, validators[k].value2)]
                    else printed;
    forall k' | k' in Mismatched(validators, voters) && k' !in remaining - {k}
      ensures exists i :: 0 <= i < |printed'| && printed'[i].validator == k'
    {
      if k' == k {
        assert printed'[|printed|].validator == k';
      } else {
        var i :| 0 <= i < |printed| && printed[i].validator == k';
        assert printed'[i].validator == k';
      }
    }
  }

  /**
   * TestCheckTheCsvData: loads the validator file (duplicates rejected) and
   * the voter file (grouped by validator), then reconciles them; a loader
   * panic happens before anything is printed.
   */
  method TestCheckTheCsvData(validatorRows: seq<Row>, voterRows: seq<Row>, h: string -> Address)
    returns (printed: seq<Mismatch>, fault: Option<Fault>)
    ensures var vr := ReadValidatorInfos(DataRows(validatorRows), h);
            var vo := ParseRows(DataRows(voterRows), VoteParser(h));
            && (vr.Panic? ==> printed == [] && fault == Some(vr.fault))
            && (vr.Ok? && vo.Panic? ==> printed == [] && fault == Some(vo.fault))
            && (vr.Ok? && vo.Ok? ==>
                  var groups := GroupByValidator(vo.value);
                  && (fault.None? <==> vr.value.Keys <= groups.Keys)
                  && (fault.Some? ==> fault.value == MissingVoterGroup)
                  && (forall i :: 0 <= i < |printed| ==> IsMismatch(printed[i], vr.value, groups))
                  && (forall i, j :: 0 <= i < j < |printed| ==> printed[i].validator != printed[j].validator)
                  && (fault.None? ==>
                        forall k :: k in Mismatched(vr.value, groups) <==>
                                      exists i :: 0 <= i < |printed| && printed[i].validator == k))
  {
    var validators := LoadValidatorInfos(validatorRows, h);
    if validators.Panic? {
      return [], Some(validators.fault);
    }
    var voters := LoadVoteGroups(voterRows, h);
    if voters.Panic? {
      return [], Some(voters.fault);
    }
    printed, fault := Reconcile(validators.value, voters.value);
  }
}
