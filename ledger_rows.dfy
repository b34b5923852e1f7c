/**
 * Ledger files as already-split rows, the four row parsers of the payout
 * tests, and the header-skipping, stop-at-the-first-panic reading of a file.
 */
module LedgerRows {
  import opened BigIntText

  /**
   * An account address. It is produced from the text of a column by the
   * go-ethereum `HexToAddress` conversion, which never fails; that conversion
   * is not modelled and every operation takes it as the parameter `h`.
   */
  datatype Address = Address(bytes: seq<bv8>)

  type Row = seq<string>

  /** The panics the loaders can raise, one per message the source panics with. */
  datatype Fault =
    | IndexOutOfRange(index: nat, length: nat)  // record[index] on a shorter row
    | NotAnInteger(text: string)                // "load error,:<trimmed text>"
    | DuplicateValidator                        // "validator file wrong"
    | MissingVoterGroup                         // "panic....."

  /** A computation that either returns a value or panics. */
  datatype Outcome<T> = Ok(value: T) | Panic(fault: Fault)

  /** One (address, amount) entry: a validator total or a voter payout. */
  datatype Payout = Payout(to: Address, amount: int)

  /** The two amounts a validator row declares (columns 2 and 4). */
  datatype ValidatorInfo = ValidatorInfo(value1: int, value2: int)
  datatype ValidatorRecord = ValidatorRecord(addr: Address, info: ValidatorInfo)

  /** A voter entry filed under the validator it voted for. */
  datatype VoterInfo = VoterInfo(addr: Address, value: int)
  datatype VoteRecord = VoteRecord(validator: Address, voter: VoterInfo)

  /** `record[index]`, which panics when the row is too short. */
  function Field(row: Row, index: nat): (r: Outcome<string>)
    ensures r.Ok? <==> index < |row|
    ensures r.Ok? ==> r.value == row[index]
    ensures r.Panic? ==> r.fault == IndexOutOfRange(index, |row|)
  {
    if index < |row| then Ok(row[index]) else Panic(IndexOutOfRange(index, |row|))
  }

  /** The column trimmed of blanks and read as a base-10 integer, panicking with the trimmed text. */
  function Amount(row: Row, index: nat): Outcome<int>
  {
    match Field(row, index)
    case Panic(f) => Panic(f)
    case Ok(text) =>
      var t := Trim(text);
      match ParseInt(t)
      case None => Panic(NotAnInteger(t))
      case Some(n) => Ok(n)
  }

  /** A column is a readable amount exactly when it exists and parses once trimmed. */
  lemma AmountOk(row: Row, index: nat)
    ensures Amount(row, index).Ok? <==> index < |row| && ParseInt(Trim(row[index])).Some?
    ensures Amount(row, index).Ok? ==> Amount(row, index).value == ParseInt(Trim(row[index])).value
    ensures index < |row| && ParseInt(Trim(row[index])).None? ==>
              Amount(row, index) == Panic(NotAnInteger(Trim(row[index])))
  {
  }

  /** handleRow0: the validator-total file, address in column 0 and amount in column 2. */
  function ValidatorTotalRow(row: Row, h: string -> Address): (r: Outcome<Payout>)
    ensures r.Ok? <==> |row| > 2 && ParseInt(Trim(row[2])).Some?
    ensures r.Ok? ==> r.value == Payout(h(row[0]), ParseInt(Trim(row[2])).value)
  {
    match Field(row, 0)
    case Panic(f) => Panic(f)
    case Ok(a) =>
      match Amount(row, 2)
      case Panic(f) => Panic(f)
      case Ok(n) => Ok(Payout(h(a), n))
  }

  /** handleRow1_0: the voter-payout file, address in column 2 and amount in column 4. */
  function VoterPayoutRow(row: Row, h: string -> Address): (r: Outcome<Payout>)
    ensures r.Ok? <==> |row| > 4 && ParseInt(Trim(row[4])).Some?
    ensures r.Ok? ==> r.value == Payout(h(row[2]), ParseInt(Trim(row[4])).value)
  {
    match Field(row, 2)
    case Panic(f) => Panic(f)
    case Ok(a) =>
      match Amount(row, 4)
      case Panic(f) => Panic(f)
      case Ok(n) => Ok(Payout(h(a), n))
  }

  /**
   * handleRow2: the validator file read with both amounts, address in column 0,
   * value1 in column 2 and value2 in column 4; column 2 is read and parsed
   * before column 4 is looked at.
   */
  function ValidatorInfoRow(row: Row, h: string -> Address): (r: Outcome<ValidatorRecord>)
    ensures r.Ok? <==> |row| > 4 && ParseInt(Trim(row[2])).Some? && ParseInt(Trim(row[4])).Some?
    ensures r.Ok? ==> r.value == ValidatorRecord(h(row[0]),
                          ValidatorInfo(ParseInt(Trim(row[2])).value, ParseInt(Trim(row[4])).value))
    ensures 2 < |row| && ParseInt(Trim(row[2])).None? ==> r == Panic(NotAnInteger(Trim(row[2])))
  {
    match Field(row, 0)
    case Panic(f) => Panic(f)
    case Ok(a) =>
      match Amount(row, 2)
      case Panic(f) => Panic(f)
      case Ok(v1) =>
        match Amount(row, 4)
        case Panic(f) => Panic(f)
        case Ok(v2) => Ok(ValidatorRecord(h(a), ValidatorInfo(v1, v2)))
  }

  /**
   * handleRow3: the voter file read as votes, validator address in column 1,
   * voter address in column 2 and amount in column 4.
   */
  function VoteRow(row: Row, h: string -> Address): (r: Outcome<VoteRecord>)
    ensures r.Ok? <==> |row| > 4 && ParseInt(Trim(row[4])).Some?
    ensures r.Ok? ==> r.value == VoteRecord(h(row[1]), VoterInfo(h(row[2]), ParseInt(Trim(row[4])).value))
  {
    match Field(row, 1)
    case Panic(f) => Panic(f)
    case Ok(a0) =>
      match Field(row, 2)
      case Panic(f) => Panic(f)
      case Ok(a1) =>
        match Amount(row, 4)
        case Panic(f) => Panic(f)
        case Ok(n) => Ok(VoteRecord(h(a0), VoterInfo(h(a1), n)))
  }

  /** An amount column as a ledger writer would produce it: the integer's digits, possibly blank-padded. */
  function AmountText(n: int, left: nat, right: nat): string
  {
    Spaces(left) + FormatInt(n) + Spaces(right)
  }

  /** A validator-total row whose amount column holds a written integer reads back as that entry. */
  lemma ValidatorTotalRowReadsBack(row: Row, n: int, left: nat, right: nat, h: string -> Address)
    requires |row| > 2 && row[2] == AmountText(n, left, right)
    ensures ValidatorTotalRow(row, h) == Ok(Payout(h(row[0]), n))
  {
    PaddedAmountReadsBack(left, n, right);
  }

  /** A voter-payout row whose amount column holds a written integer reads back as that entry. */
  lemma VoterPayoutRowReadsBack(row: Row, n: int, left: nat, right: nat, h: string -> Address)
    requires |row| > 4 && row[4] == AmountText(n, left, right)
    ensures VoterPayoutRow(row, h) == Ok(Payout(h(row[2]), n))
  {
    PaddedAmountReadsBack(left, n, right);
  }

  /** A validator row whose two amount columns hold written integers reads back as that record. */
  lemma ValidatorInfoRowReadsBack(row: Row, v1: int, v2: int, left: nat, right: nat, h: string -> Address)
    requires |row| > 4 && row[2] == AmountText(v1, left, right) && row[4] == AmountText(v2, left, right)
    ensures ValidatorInfoRow(row, h) == Ok(ValidatorRecord(h(row[0]), ValidatorInfo(v1, v2)))
  {
    PaddedAmountReadsBack(left, v1, right);
    PaddedAmountReadsBack(left, v2, right);
  }

  /** A vote row whose amount column holds a written integer reads back as that vote. */
  lemma VoteRowReadsBack(row: Row, n: int, left: nat, right: nat, h: string -> Address)
    requires |row| > 4 && row[4] == AmountText(n, left, right)
    ensures VoteRow(row, h) == Ok(VoteRecord(h(row[1]), VoterInfo(h(row[2]), n)))
  {
    PaddedAmountReadsBack(left, n, right);
  }

  // The row parsers as values, so that every mention of "the parser of a file kind" is the same function.
  function ValidatorTotalParser(h: string -> Address): Row -> Outcome<Payout>
  {
    row => ValidatorTotalRow(row, h)
  }

  function VoterPayoutParser(h: string -> Address): Row -> Outcome<Payout>
  {
    row => VoterPayoutRow(row, h)
  }

  function ValidatorInfoParser(h: string -> Address): Row -> Outcome<ValidatorRecord>
  {
    row => ValidatorInfoRow(row, h)
  }

  function VoteParser(h: string -> Address): Row -> Outcome<VoteRecord>
  {
    row => VoteRow(row, h)
  }

  /** The rows after the header row; row 0 is never parsed. */
  function DataRows(rows: seq<Row>): (r: seq<Row>)
    ensures |r| == if |rows| == 0 then 0 else |rows| - 1
  {
    if |rows| == 0 then [] else rows[1..]
  }

  /** The header is never a data row: data row i is row i + 1 of the file. */
  lemma DataRowsSkipHeader(rows: seq<Row>)
    ensures forall i :: 0 <= i < |DataRows(rows)| ==> DataRows(rows)[i] == rows[i + 1]
  {
  }

  /** Reading one more row appends it to the data rows (the header excepted). */
  lemma DataRowsExtend(rows: seq<Row>, pos: nat)
    requires 0 < pos < |rows|
    ensures DataRows(rows[..pos + 1]) == DataRows(rows[..pos]) + [rows[pos]]
  {
  }

  /**
   * Parses every row in order; the first row that panics ends the reading and
   * its panic is the result, so no partial result is ever returned.
   */
  function ParseRows<T>(rows: seq<Row>, parse: Row -> Outcome<T>): Outcome<seq<T>>
  {
    if rows == [] then Ok([])
    else
      match ParseRows(rows[..|rows| - 1], parse)
      case Panic(f) => Panic(f)
      case Ok(xs) =>
        match parse(rows[|rows| - 1])
        case Panic(f) => Panic(f)
        case Ok(x) => Ok(xs + [x])
  }

  /** The one-row step of ParseRows, for a loop that reads rows one at a time. */
  lemma ParseRowsExtend<T>(rows: seq<Row>, row: Row, parse: Row -> Outcome<T>)
    ensures ParseRows(rows + [row], parse) ==
              match ParseRows(rows, parse)
              case Panic(f) => Panic(f)
              case Ok(xs) => match parse(row) case Panic(f) => Panic(f) case Ok(x) => Ok(xs + [x])
  {
    assert (rows + [row])[..|rows|] == rows;
  }

  /** The rest of the file after a row: the data rows read so far, then the unread rows. */
  lemma DataRowsSplit(rows: seq<Row>, pos: nat)
    requires 0 < pos < |rows|
    ensures DataRows(rows[..pos + 1]) + rows[pos + 1..] == DataRows(rows)
  {
    assert DataRows(rows[..pos + 1]) == rows[1..pos + 1];
    assert rows[1..pos + 1] + rows[pos + 1..] == rows[1..];
  }

  /**
   * What a loader's loop has read once its position counter reaches `n`: row
   * 0 is the header and is skipped, and rows 1 to n - 1 are parsed in order,
   * the first one that panics ending the reading.
   */
  function ReadUpTo<T>(rows: seq<Row>, n: nat, parse: Row -> Outcome<T>): Outcome<seq<T>>
    requires n <= |rows|
  {
    if n <= 1 then Ok([])
    else
      match ReadUpTo(rows, n - 1, parse)
      case Panic(f) => Panic(f)
      case Ok(xs) =>
        match parse(rows[n - 1])
        case Panic(f) => Panic(f)
        case Ok(x) => Ok(xs + [x])
  }

  /** Reading row by row up to position n is reading the data rows of the first n rows. */
  lemma {:induction false} ReadUpToAgrees<T>(rows: seq<Row>, n: nat, parse: Row -> Outcome<T>)
    requires n <= |rows|
    ensures ReadUpTo(rows, n, parse) == ParseRows(DataRows(rows[..n]), parse)
  {
    if n <= 1 {
      assert DataRows(rows[..n]) == [];
    } else {
      ReadUpToAgrees(rows, n - 1, parse);
      DataRowsExtend(rows, n - 1);
      ParseRowsExtend(DataRows(rows[..n - 1]), rows[n - 1], parse);
    }
  }

  /** The loop runs to the end of the file: its reading is that of every data row. */
  /** One more row: its entry is appended, or its panic is the whole file's outcome. */
  lemma ReadUpToStep<T>(rows: seq<Row>, n: nat, parse: Row -> Outcome<T>, xs: seq<T>)
    requires 0 < n < |rows|
    requires ReadUpTo(rows, n, parse) == Ok(xs)
    ensures parse(rows[n]).Ok? ==> ReadUpTo(rows, n + 1, parse) == Ok(xs + [parse(rows[n]).value])
    ensures parse(rows[n]).Panic? ==> ParseRows(DataRows(rows), parse) == Panic(parse(rows[n]).fault)
  {
    if parse(rows[n]).Panic? {
      ReadUpToPanic(rows, n + 1, parse);
    }
  }

  lemma ReadUpToEnd<T>(rows: seq<Row>, parse: Row -> Outcome<T>)
    ensures ReadUpTo(rows, |rows|, parse) == ParseRows(DataRows(rows), parse)
  {
    ReadUpToAgrees(rows, |rows|, parse);
    assert rows[..|rows|] == rows;
  }

  /** A loop that stops at a panic: that panic is the reading of the whole file. */
  lemma ReadUpToPanic<T>(rows: seq<Row>, n: nat, parse: Row -> Outcome<T>)
    requires n <= |rows|
    requires ReadUpTo(rows, n, parse).Panic?
    ensures ParseRows(DataRows(rows), parse) == ReadUpTo(rows, n, parse)
  {
    ReadUpToAgrees(rows, n, parse);
    if n == |rows| {
      assert rows[..n] == rows;
    } else {
      PanicPersists(DataRows(rows[..n]), rows[n..], parse);
      DataRowsSplit(rows, n - 1);
    }
  }

  /** Once a prefix of the file panics, reading any further rows does not change the outcome. */
  lemma {:induction false} PanicPersists<T>(rows: seq<Row>, more: seq<Row>, parse: Row -> Outcome<T>)
    requires ParseRows(rows, parse).Panic?
    ensures ParseRows(rows + more, parse) == ParseRows(rows, parse)
  {
    if more != [] {
      var init := more[..|more| - 1];
      PanicPersists(rows, init, parse);
      assert rows + more == (rows + init) + [more[|more| - 1]];
      ParseRowsExtend(rows + init, more[|more| - 1], parse);
    } else {
      assert rows + more == rows;
    }
  }

  /**
   * The file reads successfully exactly when every row parses; then the result
   * has one entry per row, in row order.
   */
  lemma {:induction false} ParseRowsOk<T>(rows: seq<Row>, parse: Row -> Outcome<T>)
    ensures ParseRows(rows, parse).Ok? <==> forall i :: 0 <= i < |rows| ==> parse(rows[i]).Ok?
    ensures ParseRows(rows, parse).Ok? ==>
              |ParseRows(rows, parse).value| == |rows| &&
              forall i :: 0 <= i < |rows| ==> ParseRows(rows, parse).value[i] == parse(rows[i]).value
  {
    if rows != [] {
      var init := rows[..|rows| - 1];
      ParseRowsOk(init, parse);
      assert forall i :: 0 <= i < |init| ==> init[i] == rows[i];
    }
  }

  /** A failed reading reports the panic of the first row that does not parse. */
  lemma {:induction false} ParseRowsPanic<T>(rows: seq<Row>, parse: Row -> Outcome<T>)
    requires ParseRows(rows, parse).Panic?
    ensures exists i :: 0 <= i < |rows| && parse(rows[i]) == Panic(ParseRows(rows, parse).fault) &&
                        forall j :: 0 <= j < i ==> parse(rows[j]).Ok?
  {
    var init := rows[..|rows| - 1];
    assert forall i :: 0 <= i < |init| ==> init[i] == rows[i];
    match ParseRows(init, parse)
    case Panic(f) =>
      ParseRowsPanic(init, parse);
      var i :| 0 <= i < |init| && parse(init[i]) == Panic(f) && forall j :: 0 <= j < i ==> parse(init[j]).Ok?;
      assert parse(rows[i]) == Panic(f);
    case Ok(xs) =>
      ParseRowsOk(init, parse);
      assert parse(rows[|rows| - 1]) == Panic(ParseRows(rows, parse).fault);
  }
}
