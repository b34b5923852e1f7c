/**
 * What the loaders build from the parsed entries, as functions of the entries
 * in file order, and what those structures are proved to contain: per-address
 * sums, a duplicate-rejecting index, and per-validator groups of voters.
 */
module Aggregates {
  import opened LedgerRows

  // ---------------------------------------------------------------------------
  // Sums over maps. Go visits a map in no fixed order, so a sum over a map is
  // defined by taking its keys in an arbitrary order; the lemmas below show
  // that the order does not matter.

  /** The sum of `m`'s values over the keys `ks`. */
  ghost function KeySum(m: map<Address, int>, ks: set<Address>): int
    requires ks <= m.Keys
    decreases ks
  {
    if ks == {} then 0 else var k :| k in ks; m[k] + KeySum(m, ks - {k})
  }

  /** The sum of all values of `m`. */
  ghost function MapSum(m: map<Address, int>): int
  {
    KeySum(m, m.Keys)
  }

  /** Any key can be taken out first: the sum does not depend on the order of the keys. */
  lemma {:induction false} KeySumRemove(m: map<Address, int>, ks: set<Address>, k: Address)
    requires ks <= m.Keys && k in ks
    ensures KeySum(m, ks) == m[k] + KeySum(m, ks - {k})
    decreases ks
  {
    var j :| j in ks && KeySum(m, ks) == m[j] + KeySum(m, ks - {j});
    if j != k {
      KeySumRemove(m, ks - {j}, k);
      KeySumRemove(m, ks - {k}, j);
      assert ks - {j} - {k} == ks - {k} - {j};
    }
  }

  /** Two maps that agree on `ks` have the same sum over `ks`. */
  lemma {:induction false} KeySumAgree(m1: map<Address, int>, m2: map<Address, int>, ks: set<Address>)
    requires ks <= m1.Keys && ks <= m2.Keys
    requires forall k :: k in ks ==> m1[k] == m2[k]
    ensures KeySum(m1, ks) == KeySum(m2, ks)
    decreases ks
  {
    if ks != {} {
      var k :| k in ks && KeySum(m1, ks) == m1[k] + KeySum(m1, ks - {k});
      KeySumRemove(m2, ks, k);
      KeySumAgree(m1, m2, ks - {k});
    }
  }

  /** Setting one key changes the sum by the difference at that key. */
  lemma MapSumUpdate(m: map<Address, int>, k: Address, v: int)
    ensures MapSum(m[k := v]) == MapSum(m) + v - (if k in m then m[k] else 0)
  {
    var m' := m[k := v];
    var rest := m.Keys - {k};
    KeySumRemove(m', m'.Keys, k);
    assert m'.Keys - {k} == rest;
    KeySumAgree(m', m, rest);
    if k in m {
      KeySumRemove(m, m.Keys, k);
    } else {
      assert rest == m.Keys;
    }
  }

  // ---------------------------------------------------------------------------
  // Reference definitions over the entries, independent of any map.

  /** The sum of all amounts. */
  function Total(ps: seq<Payout>): int
  {
    if ps == [] then 0 else Total(ps[..|ps| - 1]) + ps[|ps| - 1].amount
  }

  lemma TotalAppend(ps: seq<Payout>, qs: seq<Payout>)
    requires |qs| <= 1
    ensures Total(ps + qs) == Total(ps) + Total(qs)
  {
    if qs == [] {
      assert ps + qs == ps;
    } else {
      assert (ps + qs)[..|ps|] == ps;
    }
  }

  /** The sum of the amounts of the entries addressed to `a`. */
  function AmountTo(ps: seq<Payout>, a: Address): int
  {
    if ps == [] then 0
    else AmountTo(ps[..|ps| - 1], a) + (if ps[|ps| - 1].to == a then ps[|ps| - 1].amount else 0)
  }

  /** The addresses that occur in the entries. */
  function Addresses(ps: seq<Payout>): set<Address>
  {
    set i | 0 <= i < |ps| :: ps[i].to
  }

  // ---------------------------------------------------------------------------
  // The summed map (loadFilesForValidator2).

  /**
   * The map the loader builds: each entry adds its amount to its address's
   * total, or starts that total.
   */
  function SumByAddress(ps: seq<Payout>): map<Address, int>
  {
    if ps == [] then map[] else Credit(SumByAddress(ps[..|ps| - 1]), ps[|ps| - 1])
  }

  /**
   * The loader's read-modify-write of one entry: an address already present
   * gets the amount added to its total, a new address starts its total with
   * the amount.
   */
  function Credit(m: map<Address, int>, p: Payout): (m': map<Address, int>)
    ensures m'.Keys == m.Keys + {p.to}
    ensures m'[p.to] == (if p.to in m then m[p.to] else 0) + p.amount
    ensures forall a :: a in m && a != p.to ==> m'[a] == m[a]
  {
    if p.to in m then m[p.to := p.amount + m[p.to]] else m[p.to := p.amount]
  }

  /** One more entry: the summing step the loader performs. */
  lemma SumByAddressExtend(ps: seq<Payout>, p: Payout)
    ensures SumByAddress(ps + [p]) == Credit(SumByAddress(ps), p)
  {
    assert (ps + [p])[..|ps|] == ps;
  }

  lemma {:induction false} AddressesExtend(ps: seq<Payout>, p: Payout)
    ensures Addresses(ps + [p]) == Addresses(ps) + {p.to}
  {
    var qs := ps + [p];
    forall a | a in Addresses(qs) ensures a in Addresses(ps) + {p.to} {
      var i :| 0 <= i < |qs| && qs[i].to == a;
      if i < |ps| { assert ps[i] == qs[i]; }
    }
    forall a | a in Addresses(ps) ensures a in Addresses(qs) {
      var i :| 0 <= i < |ps| && ps[i].to == a;
      assert qs[i] == ps[i];
    }
    assert qs[|ps|] == p;
  }

  /** Key set: the map's keys are exactly the addresses that occur in the entries. */
  lemma {:induction false} SumByAddressKeys(ps: seq<Payout>)
    ensures SumByAddress(ps).Keys == Addresses(ps)
  {
    if ps != [] {
      var init := ps[..|ps| - 1];
      SumByAddressKeys(init);
      assert ps == init + [ps[|ps| - 1]];
      AddressesExtend(init, ps[|ps| - 1]);
    }
  }

  /** Per key: every address maps to the sum of the amounts of its entries (absent ones sum to zero). */
  lemma {:induction false} SumByAddressAt(ps: seq<Payout>, a: Address)
    ensures (if a in SumByAddress(ps) then SumByAddress(ps)[a] else 0) == AmountTo(ps, a)
  {
    if ps != [] {
      SumByAddressAt(ps[..|ps| - 1], a);
    }
  }

  /** Conservation: the map's values add up to the sum of all entries. */
  lemma {:induction false} SumByAddressConserves(ps: seq<Payout>)
    ensures MapSum(SumByAddress(ps)) == Total(ps)
  {
    if ps != [] {
      var m := SumByAddress(ps[..|ps| - 1]);
      var p := ps[|ps| - 1];
      SumByAddressConserves(ps[..|ps| - 1]);
      MapSumUpdate(m, p.to, Credit(m, p)[p.to]);
      assert Credit(m, p) == m[p.to := Credit(m, p)[p.to]];
    }
  }

  /** The worked example: [(A,100), (B,50), (A,25)] sums to {A: 125, B: 50}. */
  lemma SumByAddressExample(a: Address, b: Address)
    requires a != b
    ensures SumByAddress([Payout(a, 100), Payout(b, 50), Payout(a, 25)]) == map[a := 125, b := 50]
  {
    var ps := [Payout(a, 100), Payout(b, 50), Payout(a, 25)];
    assert ps[..2] == [Payout(a, 100), Payout(b, 50)];
    assert ps[..2][..1] == [Payout(a, 100)];
    assert [Payout(a, 100)][..0] == [];
    assert SumByAddress([Payout(a, 100)]) == map[a := 100];
    assert SumByAddress(ps[..2]) == map[a := 100, b := 50];
    assert map[a := 100, b := 50][a := 25 + 100] == map[a := 125, b := 50];
  }

  // ---------------------------------------------------------------------------
  // The duplicate-rejecting index (loadFilesForValidator).

  /** No address occurs twice. */
  predicate DistinctValidators(rs: seq<ValidatorRecord>)
  {
    forall i, j :: 0 <= i < j < |rs| ==> rs[i].addr != rs[j].addr
  }

  /** The map the loader builds: a repeated address panics, otherwise each address gets its row's amounts. */
  function IndexValidators(rs: seq<ValidatorRecord>): Outcome<map<Address, ValidatorInfo>>
  {
    if rs == [] then Ok(map[])
    else
      match IndexValidators(rs[..|rs| - 1])
      case Panic(f) => Panic(f)
      case Ok(m) =>
        var r := rs[|rs| - 1];
        if r.addr in m then Panic(DuplicateValidator) else Ok(m[r.addr := r.info])
  }

  /**
   * A failed index is the duplicate panic; a successful one has exactly the
   * records' addresses as keys.
   */
  lemma {:induction false} IndexValidatorsKeys(rs: seq<ValidatorRecord>)
    ensures IndexValidators(rs).Panic? ==> IndexValidators(rs).fault == DuplicateValidator
    ensures IndexValidators(rs).Ok? ==>
              forall a :: a in IndexValidators(rs).value <==> exists i :: 0 <= i < |rs| && rs[i].addr == a
  {
    if rs != [] {
      var init := rs[..|rs| - 1];
      IndexValidatorsKeys(init);
      if IndexValidators(rs).Ok? {
        forall a | a in IndexValidators(rs).value ensures exists i :: 0 <= i < |rs| && rs[i].addr == a {
          if a != rs[|rs| - 1].addr {
            var i :| 0 <= i < |init| && init[i].addr == a;
            assert rs[i].addr == a;
          }
        }
        forall a | exists i :: 0 <= i < |rs| && rs[i].addr == a ensures a in IndexValidators(rs).value {
          var i :| 0 <= i < |rs| && rs[i].addr == a;
          if i < |init| {
            assert init[i].addr == a;
          }
        }
      }
    }
  }

  /** On success each record's address maps to that record's amounts. */
  lemma {:induction false} IndexValidatorsValues(rs: seq<ValidatorRecord>)
    ensures IndexValidators(rs).Ok? ==>
              forall i :: 0 <= i < |rs| ==>
                rs[i].addr in IndexValidators(rs).value && IndexValidators(rs).value[rs[i].addr] == rs[i].info
  {
    if rs != [] && IndexValidators(rs).Ok? {
      var init := rs[..|rs| - 1];
      IndexValidatorsValues(init);
      IndexValidatorsKeys(init);
      forall i | 0 <= i < |init| ensures rs[i].addr != rs[|rs| - 1].addr && init[i] == rs[i] {
        assert init[i].addr in IndexValidators(init).value;
      }
    }
  }

  /** The index succeeds exactly when no address repeats. */
  lemma {:induction false} IndexValidatorsDistinct(rs: seq<ValidatorRecord>)
    ensures IndexValidators(rs).Ok? <==> DistinctValidators(rs)
  {
    if rs != [] {
      var init := rs[..|rs| - 1];
      var r := rs[|rs| - 1];
      IndexValidatorsDistinct(init);
      IndexValidatorsKeys(init);
      assert forall i :: 0 <= i < |init| ==> init[i] == rs[i];
      if IndexValidators(init).Ok? {
        if r.addr in IndexValidators(init).value {
          var i :| 0 <= i < |init| && init[i].addr == r.addr;
          assert rs[i].addr == rs[|rs| - 1].addr;
        } else {
          assert forall i :: 0 <= i < |init| ==> init[i].addr != r.addr;
        }
      }
    }
  }

  /**
   * The index succeeds exactly when no address repeats; a failure is the
   * duplicate panic; on success the keys are the addresses of the records and
   * each maps to the amounts of its unique record.
   */
  lemma IndexValidatorsCorrect(rs: seq<ValidatorRecord>)
    ensures IndexValidators(rs).Ok? <==> DistinctValidators(rs)
    ensures IndexValidators(rs).Panic? ==> IndexValidators(rs).fault == DuplicateValidator
    ensures IndexValidators(rs).Ok? ==>
              (forall a :: a in IndexValidators(rs).value <==> exists i :: 0 <= i < |rs| && rs[i].addr == a) &&
              (forall i :: 0 <= i < |rs| ==> IndexValidators(rs).value[rs[i].addr] == rs[i].info)
  {
    IndexValidatorsKeys(rs);
    IndexValidatorsValues(rs);
    IndexValidatorsDistinct(rs);
  }

  /**
   * What loadFilesForValidator returns for the data rows: rows are read one at
   * a time, and a row panics either because it does not parse or because its
   * address was seen before, whichever comes first in the file.
   */
  function ReadValidatorInfos(data: seq<Row>, h: string -> Address): Outcome<map<Address, ValidatorInfo>>
  {
    if data == [] then Ok(map[])
    else
      match ReadValidatorInfos(data[..|data| - 1], h)
      case Panic(f) => Panic(f)
      case Ok(m) =>
        match ValidatorInfoRow(data[|data| - 1], h)
        case Panic(f) => Panic(f)
        case Ok(r) => if r.addr in m then Panic(DuplicateValidator) else Ok(m[r.addr := r.info])
  }

  /** The one-row step of ReadValidatorInfos. */
  lemma ReadValidatorInfosExtend(data: seq<Row>, row: Row, h: string -> Address)
    ensures ReadValidatorInfos(data + [row], h) ==
              match ReadValidatorInfos(data, h)
              case Panic(f) => Panic(f)
              case Ok(m) =>
                match ValidatorInfoRow(row, h)
                case Panic(f) => Panic(f)
                case Ok(r) => if r.addr in m then Panic(DuplicateValidator) else Ok(m[r.addr := r.info])
  {
    assert (data + [row])[..|data|] == data;
  }

  /** Once a prefix panics, later rows are never read. */
  lemma {:induction false} ReadValidatorInfosPersists(data: seq<Row>, more: seq<Row>, h: string -> Address)
    requires ReadValidatorInfos(data, h).Panic?
    ensures ReadValidatorInfos(data + more, h) == ReadValidatorInfos(data, h)
  {
    if more == [] {
      assert data + more == data;
    } else {
      var init := more[..|more| - 1];
      ReadValidatorInfosPersists(data, init, h);
      assert data + more == (data + init) + [more[|more| - 1]];
      ReadValidatorInfosExtend(data + init, more[|more| - 1], h);
    }
  }

  /**
   * Reading row by row agrees with parsing every row and then indexing the
   * records: when every row parses the result is IndexValidators of the
   * records, and when some row does not parse the result is a panic.
   */
  lemma {:induction false} ReadValidatorInfosAgrees(data: seq<Row>, h: string -> Address)
    ensures ParseRows(data, ValidatorInfoParser(h)).Ok? ==>
              ReadValidatorInfos(data, h) == IndexValidators(ParseRows(data, ValidatorInfoParser(h)).value)
    ensures ParseRows(data, ValidatorInfoParser(h)).Panic? ==> ReadValidatorInfos(data, h).Panic?
  {
    if data != [] {
      var init := data[..|data| - 1];
      ReadValidatorInfosAgrees(init, h);
      var p := ParseRows(init, ValidatorInfoParser(h));
      if p.Ok? {
        var parsed := ValidatorInfoRow(data[|data| - 1], h);
        assert ValidatorInfoParser(h)(data[|data| - 1]) == parsed;
        if parsed.Ok? {
          assert (p.value + [parsed.value])[..|p.value|] == p.value;
        }
      }
    }
  }

  // ---------------------------------------------------------------------------
  // The per-validator grouping of voter entries (loadFilesForVoter).

  /** The validators that occur in the votes. */
  function Validators(vs: seq<VoteRecord>): set<Address>
  {
    set i | 0 <= i < |vs| :: vs[i].validator
  }

  /** The voter entries filed under validator `a`, in file order. */
  function VotesFor(vs: seq<VoteRecord>, a: Address): seq<VoterInfo>
  {
    if vs == [] then []
    else VotesFor(vs[..|vs| - 1], a) + (if vs[|vs| - 1].validator == a then [vs[|vs| - 1].voter] else [])
  }

  /** The map the loader builds: each vote is filed under its validator in turn. */
  function GroupByValidator(vs: seq<VoteRecord>): map<Address, seq<VoterInfo>>
  {
    if vs == [] then map[] else File(GroupByValidator(vs[..|vs| - 1]), vs[|vs| - 1])
  }

  /**
   * The loader's update for one vote: a validator already present gets the
   * voter appended to its list, a new one starts a list with the voter.
   */
  function File(m: map<Address, seq<VoterInfo>>, v: VoteRecord): (m': map<Address, seq<VoterInfo>>)
    ensures m'.Keys == m.Keys + {v.validator}
    ensures m'[v.validator] == (if v.validator in m then m[v.validator] else []) + [v.voter]
    ensures forall a :: a in m && a != v.validator ==> m'[a] == m[a]
  {
    if v.validator in m then m[v.validator := m[v.validator] + [v.voter]] else m[v.validator := [v.voter]]
  }

  /** One more vote: the filing step the loader performs. */
  lemma GroupByValidatorExtend(vs: seq<VoteRecord>, v: VoteRecord)
    ensures GroupByValidator(vs + [v]) == File(GroupByValidator(vs), v)
  {
    assert (vs + [v])[..|vs|] == vs;
  }

  /** The number of entries in each group. */
  function GroupSizes(m: map<Address, seq<VoterInfo>>): map<Address, int>
  {
    map a | a in m :: |m[a]|
  }

  /**
   * The keys are exactly the validators that occur, each group holds exactly
   * that validator's voter entries in file order, and no group is empty.
   */
  lemma {:induction false} GroupByValidatorCorrect(vs: seq<VoteRecord>)
    ensures GroupByValidator(vs).Keys == Validators(vs)
    ensures forall a :: a in GroupByValidator(vs) ==> GroupByValidator(vs)[a] == VotesFor(vs, a) != []
  {
    if vs != [] {
      var init := vs[..|vs| - 1];
      var v := vs[|vs| - 1];
      GroupByValidatorCorrect(init);
      ValidatorsLast(vs);
      forall a | a !in Validators(init) ensures VotesFor(init, a) == [] {
        VotesForAbsent(init, a);
      }
    }
  }

  /** The validators of a non-empty list: those before its last vote, and the last vote's. */
  lemma ValidatorsLast(vs: seq<VoteRecord>)
    requires vs != []
    ensures Validators(vs) == Validators(vs[..|vs| - 1]) + {vs[|vs| - 1].validator}
  {
    var init := vs[..|vs| - 1];
    forall a | a in Validators(vs) ensures a in Validators(init) + {vs[|vs| - 1].validator} {
      var i :| 0 <= i < |vs| && vs[i].validator == a;
      if i < |init| { assert init[i] == vs[i]; }
    }
    forall a | a in Validators(init) ensures a in Validators(vs) {
      var i :| 0 <= i < |init| && init[i].validator == a;
      assert vs[i] == init[i];
    }
    assert vs[|vs| - 1].validator in Validators(vs);
  }

  lemma {:induction false} VotesForAbsent(vs: seq<VoteRecord>, a: Address)
    requires a !in Validators(vs)
    ensures VotesFor(vs, a) == []
  {
    if vs != [] {
      ValidatorsLast(vs);
      VotesForAbsent(vs[..|vs| - 1], a);
    }
  }

  /** Conservation of entries: the groups together hold exactly as many entries as there are votes. */
  lemma {:induction false} GroupByValidatorCount(vs: seq<VoteRecord>)
    ensures MapSum(GroupSizes(GroupByValidator(vs))) == |vs|
  {
    if vs == [] {
      assert GroupSizes(map[]) == map[];
    } else {
      var m := GroupByValidator(vs[..|vs| - 1]);
      var v := vs[|vs| - 1];
      GroupByValidatorCount(vs[..|vs| - 1]);
      var n := if v.validator in m then |m[v.validator]| + 1 else 1;
      assert GroupSizes(GroupByValidator(vs)) == GroupSizes(m)[v.validator := n];
      MapSumUpdate(GroupSizes(m), v.validator, n);
    }
  }

  /** The sum of a group's voter amounts. */
  function GroupTotal(vv: seq<VoterInfo>): int
  {
    if vv == [] then 0 else GroupTotal(vv[..|vv| - 1]) + vv[|vv| - 1].value
  }
}
