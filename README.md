# Payout-ledger aggregation and reconciliation

This project models the ledger code of `handler/handler_test.go` in the
marker tool. That code reads comma-separated payout ledgers and uses them to
pay validators and voters and to check one ledger against the other. Each
file has a header row followed by data rows. The model covers:

- the four row parsers `handleRow0`, `handleRow1_0`, `handleRow2` and
  `handleRow3`. They pick fixed columns, strip blanks from an amount field
  and read it as an exact base-10 integer (`big.Int.SetString`), and they
  panic on a short row or an unreadable amount;
- the four loaders. `loadFilesForValidator2` builds a per-address summed map.
  `loadFilesForVoter2` builds two parallel lists in file order.
  `loadFilesForValidator` builds a map that panics on a repeated address.
  `loadFilesForVoter` groups votes by validator;
- the test bodies that act on the loaded ledgers:
  - `TestBatchTransaction` computes the totals it reports;
  - `TestBatchValidators` pays every validator its summed amount;
  - `TestBatchVoters` applies the skip rule for the reserved address
    `0xc052261da7602245558b297c587a8545e67d1109` and pays only positive
    amounts;
  - `TestCheckTheCsvData`, the reconciliation, reports each validator whose
    declared `value2` differs from the sum of its voters' amounts.

Modules, in dependency order:

- `BigIntText` (bigint_text.dfy): `strings.Trim(s, " ")`, and
  `big.Int.SetString(s, 10)` with `big.Int.String()` as its inverse.
- `LedgerRows` (ledger_rows.dfy): addresses, the record types, the panic
  outcome, the row parsers, and `ParseRows`. `ParseRows` is the reference
  reading of a file's data rows, stopping at the first row that panics.
- `Aggregates` (aggregates.dfy): the reference structures the loaders must
  build. These are sums over entry lists, the per-address summed map, the
  duplicate-rejecting index and the grouping by validator, with their
  properties proved as lemmas.
- `Loaders` (loaders.dfy): the four loaders as methods. Each has the
  source's `pos` loop and updates its map or lists in place. Each is proved
  to return exactly the reference structure of the rows it was given. The
  summing and grouping loaders perform their map update through
  `Aggregates.Credit` and `Aggregates.File`, whose bodies hold the source's
  "key present / key missing" branch.
- `Batches` (batches.dfy): the test bodies as methods with their running
  sums and counters, proved against the reference functions.

A file is given as its already-split rows (`seq<seq<string>>`). A Go panic
is the result `Panic(fault)`. `common.HexToAddress` is the parameter
`h: string -> Address`, a total function from text to an address. Go map
iteration order is random, so every loop over a map picks its next key with
`:|`, and each of its contracts holds for every order.

Four facts about the code shape the model:

- A negative amount such as `-5` is accepted by `SetString` and summed like
  any other amount.
- An amount must be an integer; a decimal point makes the row panic.
- The reconciliation compares only `value2`; `value1` is read but never used.
- The skip rule of `TestBatchVoters` excludes one reserved address.

## Model

| member | source | states |
|---|---|---|
| BigIntText.Trim | handler/handler_test.go:274 | the input is the result with a run of blanks on each side, and the result neither starts nor ends with a blank, so exactly the leading and trailing blanks are removed and everything between them is kept; it is no longer than the input |
| BigIntText.TrimSplit | handler/handler_test.go:274 | the text is the blanks stripped at its start, then the trimmed text, then the blanks stripped at its end |
| BigIntText.TrimPadded | handler/handler_test.go:274 | blanks added on both sides of a text that does not start or end with a blank are exactly what trimming removes |
| BigIntText.TrimIdempotent | handler/handler_test.go:274 | trimming a trimmed text changes nothing |
| BigIntText.ParseInt | handler/handler_test.go:275-278 | a text is accepted exactly when it is one or more decimal digits after an optional `+` or `-`; a `-` text reads as a value <= 0, any other as a value >= 0 (the values themselves are stated by ParseUnsigned, ParsePlus and ParseNegative) |
| BigIntText.ParseUnsigned | handler/handler_test.go:275 | a run of one or more digits reads as its decimal value |
| BigIntText.ParsePlus | handler/handler_test.go:275 | a `+` followed by one or more digits reads as the decimal value of the digits |
| BigIntText.ParseNegative | handler/handler_test.go:275 | a `-` followed by one or more digits reads as the negated decimal value |
| BigIntText.FormatNatValue | handler/handler_test.go:275 | the decimal digits written for a natural number have that number as their value |
| BigIntText.ParseFormatRoundTrip | handler/handler_test.go:275 | reading back the decimal text of any integer gives that integer |
| BigIntText.PaddedAmountReadsBack | handler/handler_test.go:295-299 | an amount column holding an integer's text padded with blanks reads back as that integer |
| LedgerRows.Field | handler/handler_test.go:272-273 | `record[i]` returns column i when the row has one, and otherwise panics with the index and the row length |
| LedgerRows.AmountOk | handler/handler_test.go:273-278 | an amount column reads exactly when it exists and its trimmed text parses; an unparseable text panics with the trimmed text |
| LedgerRows.ValidatorTotalRow | handler/handler_test.go:271-280 | the row reads exactly when column 2 exists and parses once trimmed; the entry is (address of column 0, that amount) |
| LedgerRows.VoterPayoutRow | handler/handler_test.go:293-301 | the row reads exactly when column 4 exists and parses once trimmed; the entry is (address of column 2, that amount) |
| LedgerRows.ValidatorInfoRow | handler/handler_test.go:409-422 | the row reads exactly when columns 2 and 4 both exist and parse; the record is (address of column 0, value1 from column 2, value2 from column 4); an unreadable column 2 panics first |
| LedgerRows.VoteRow | handler/handler_test.go:425-434 | the row reads exactly when column 4 exists and parses; the vote is (validator of column 1, voter of column 2, amount of column 4) |
| LedgerRows.ValidatorTotalRowReadsBack | handler/handler_test.go:271-280 | a row whose column 2 holds an integer with any blank padding on either side reads back as (address of column 0, that integer) |
| LedgerRows.VoterPayoutRowReadsBack | handler/handler_test.go:293-301 | a row whose column 4 holds an integer with any blank padding on either side reads back as (address of column 2, that integer) |
| LedgerRows.ValidatorInfoRowReadsBack | handler/handler_test.go:409-422 | a row whose columns 2 and 4 hold blank-padded integers reads back as (address of column 0, those two integers) |
| LedgerRows.VoteRowReadsBack | handler/handler_test.go:425-434 | a row whose column 4 holds a blank-padded integer reads back as (validator of column 1, voter of column 2, that integer) |
| LedgerRows.DataRows | handler/handler_test.go:217-235 | there is one fewer data row than rows, and none for an empty file |
| LedgerRows.DataRowsSkipHeader | handler/handler_test.go:226 | the header is never a data row: data row i is file row i + 1 |
| LedgerRows.DataRowsSplit | handler/handler_test.go:218-235 | the rows read up to position pos, followed by the rows after it, are all the data rows |
| LedgerRows.DataRowsExtend | handler/handler_test.go:226 | each row read after the header adds exactly that row to the data rows |
| LedgerRows.ParseRowsExtend | handler/handler_test.go:259-264 | reading one more row keeps an earlier panic; otherwise it appends that row's value or panics with that row's fault |
| LedgerRows.ReadUpToAgrees | handler/handler_test.go:218-235 | reading the first n rows row by row, skipping row 0, gives the same outcome as reading the data rows among them |
| LedgerRows.ReadUpToStep | handler/handler_test.go:226-232 | one more row after the header either appends its entry to those read so far or, if it panics, decides the outcome of the whole file |
| LedgerRows.ReadUpToEnd | handler/handler_test.go:223-225 | when the loop reaches the end of the file, it has read every data row |
| LedgerRows.ReadUpToPanic | handler/handler_test.go:276-278 | a panic within the first n rows is the outcome of reading the whole file |
| LedgerRows.PanicPersists | handler/handler_test.go:276-278 | once a row has panicked, later rows do not change the outcome |
| LedgerRows.ParseRowsOk | handler/handler_test.go:217-235 | a file reads exactly when every data row reads; then there is one entry per data row, in file order |
| LedgerRows.ParseRowsPanic | handler/handler_test.go:217-235 | a file that panics has a first data row that panics with that fault, and every row before it reads |
| Aggregates.KeySumRemove | handler/handler_test.go:169-171 | a sum of map values taken key by key may take any key first |
| Aggregates.KeySumAgree | handler/handler_test.go:227-232 | sums over the same keys of two maps that agree on those keys are equal |
| Aggregates.MapSumUpdate | handler/handler_test.go:227-232 | overwriting one key changes the sum of the map values by the difference at that key |
| Aggregates.TotalAppend | handler/handler_test.go:149-154 | the total of a list grows by the amount of each appended entry |
| Aggregates.Credit | handler/handler_test.go:227-232 | adding an entry to the summed map adds its amount at its address, creates the key if it is missing, and leaves every other key unchanged |
| Aggregates.SumByAddressExtend | handler/handler_test.go:227-232 | the summed map of a list with one more entry is the old map credited with that entry |
| Aggregates.AddressesExtend | handler/handler_test.go:227-232 | the addresses of a list with one more entry are the old addresses plus that entry's address |
| Aggregates.SumByAddressKeys | handler/handler_test.go:227-232 | the summed map's keys are exactly the addresses that occur in the entries |
| Aggregates.SumByAddressAt | handler/handler_test.go:227-232 | for every address, the summed map holds the sum of the amounts of all entries to that address (0 when there are none) |
| Aggregates.SumByAddressConserves | handler/handler_test.go:227-232 | the map values add up to the total of all the entries |
| Aggregates.SumByAddressExample | handler/handler_test.go:227-232 | entries (a,100), (b,50), (a,25) give the map a: 125, b: 50 |
| Aggregates.IndexValidatorsCorrect | handler/handler_test.go:353-361 | indexing succeeds exactly when no address repeats, and a failure is the duplicate-validator panic; on success the keys are the addresses and each maps to the amounts of its unique row |
| Aggregates.IndexValidatorsKeys | handler/handler_test.go:353-361 | a failed index is the duplicate-validator panic; a successful one has exactly the records' addresses as keys |
| Aggregates.IndexValidatorsValues | handler/handler_test.go:357-360 | on success each record's address maps to that record's two amounts |
| Aggregates.IndexValidatorsDistinct | handler/handler_test.go:354-356 | the index succeeds exactly when no address repeats |
| Aggregates.ReadValidatorInfosExtend | handler/handler_test.go:352-362 | reading one more validator row: an earlier panic stays; a row that does not parse panics with its fault; a repeated address panics as a duplicate; otherwise the row is added |
| Aggregates.ReadValidatorInfosPersists | handler/handler_test.go:355 | once reading the validator file has panicked, later rows do not change the outcome |
| Aggregates.ReadValidatorInfosAgrees | handler/handler_test.go:352-362 | when every row parses, reading the validator file gives exactly the duplicate-rejecting index of the records; when some row fails to parse, reading panics |
| Aggregates.GroupByValidatorCorrect | handler/handler_test.go:389-400 | the groups' keys are exactly the validators that occur; each group is that validator's votes in file order, and no group is empty |
| Aggregates.File | handler/handler_test.go:390-400 | filing a vote adds its validator as a key, appends the voter to that validator's existing list or starts a one-entry list, and leaves every other validator's list unchanged |
| Aggregates.GroupByValidatorExtend | handler/handler_test.go:389-400 | the grouping of a list with one more vote is the old grouping with that vote filed |
| Aggregates.ValidatorsLast | handler/handler_test.go:389-400 | the validators of a vote list are those before its last vote plus the last vote's |
| Aggregates.VotesForAbsent | handler/handler_test.go:389-400 | a validator that does not occur has no votes |
| Aggregates.GroupByValidatorCount | handler/handler_test.go:389-400 | the group sizes add up to the number of votes |
| Loaders.LoadValidatorTotals | handler/handler_test.go:206-238 | the loop returns the per-address summed map of the file's data entries, or the panic of the first data row that does not read |
| Loaders.Pairs | handler/handler_test.go:259-264 | two equally long lists zip into entries in order |
| Loaders.PairsExtend | handler/handler_test.go:261-263 | appending an address and an amount to the two lists appends that one entry |
| Loaders.LoadVoterPayouts | handler/handler_test.go:239-268 | the loop returns two equally long lists that zip into exactly the file's data entries, or the panic of the first bad row |
| Loaders.VoterPayoutsInFileOrder | handler/handler_test.go:259-264 | both lists are as long as the number of data rows, and entry i is columns 2 and 4 of file row i + 1 |
| Loaders.LoadValidatorInfos | handler/handler_test.go:332-367 | the loop returns exactly the row-by-row reading of the validator file: the first bad row or repeated address panics, and otherwise each address maps to its row's two amounts |
| Loaders.LoadVoteGroups | handler/handler_test.go:368-406 | the loop returns the grouping by validator of the file's votes, or the panic of the first bad row |
| Batches.CountsPartition | handler/handler_test.go:192-202 | entries to the reserved address plus all other entries are as many as the voter list |
| Batches.TotalsPartition | handler/handler_test.go:148-157 | the amount to the reserved address plus the total of the other entries is the total of all entries |
| Batches.PayableExactly | handler/handler_test.go:192-202 | an entry is paid exactly when it is in the list, is not to the reserved address and has a positive amount |
| Batches.PaidMatchesSum | handler/handler_test.go:194-201 | when no amount is negative, the paid amounts add up to `sum` |
| Batches.NegativeAmountNotPaid | handler/handler_test.go:194-201 | a negative amount to another address is added to `sum` but not paid, so the two then differ |
| Batches.BatchVoters | handler/handler_test.go:189-203 | the transfers issued are exactly the payable entries in order; `sum` is the total of the non-reserved entries; `count` is the number of reserved entries and `count2` the number of transfers; `count` plus the non-reserved entries is the list length |
| Batches.VoterStep | handler/handler_test.go:189-203 | one more entry adds its amount to the total; if it is to the reserved address it adds to that address's amount and count, otherwise to the other entries' total, and a positive one becomes payable |
| Batches.TestBatchVoters | handler/handler_test.go:178-205 | the voter file's load outcome decides the outcome; on success the transfers are exactly the payable entries of the file in order, `sum` is the total of the non-reserved entries, `count` the number of reserved entries and `count2` the number of transfers |
| Batches.TestBatchTransaction | handler/handler_test.go:140-158 | the validator file is loaded first and its panic wins; otherwise `sum0` is the total of the validator entries, `sum1` that of the voter entries, `sum2` the amount to the reserved address, `sum` is `sum0 + sum1`, and `sum3` is `sum1 - sum2`, the total of the other voter entries |
| Batches.SumValues | handler/handler_test.go:144-146 | the loop over the summed map, in any order, adds up to the sum of the map values |
| Batches.SumVoterAmounts | handler/handler_test.go:149-154 | `sum1` is the total of the voter entries and `sum2` the amount of those to the reserved address |
| Batches.BatchValidators | handler/handler_test.go:166-176 | one transfer per map key, each of the key's summed amount, no address twice; `sum` is the sum of the map values |
| Batches.SentSoFarStep | handler/handler_test.go:169-175 | visiting one more address adds one transfer of its total and keeps every transfer distinct, to a visited key, with that key's total |
| Batches.TestBatchValidators | handler/handler_test.go:159-177 | a load panic is the outcome; otherwise every address in the file is paid exactly once, with the sum of its amounts, no address is paid twice, and `sum` is the total of the file's amounts |
| Batches.Reconcile | handler/handler_test.go:318-330 | it panics exactly when some validator has no voter group; every printed line is a true mismatch and names a distinct validator; with no panic the printed validators are exactly the mismatched ones, so matching validators print nothing |
| Batches.SumGroup | handler/handler_test.go:320-323 | the inner loop adds up a group's voter amounts |
| Batches.PrintedSoFarStep | handler/handler_test.go:318-327 | visiting a validator with a voter group prints it exactly when it mismatches, and keeps every printed line a true, distinct mismatch and every visited mismatch printed |
| Batches.TestCheckTheCsvData | handler/handler_test.go:312-331 | the validator file is loaded and checked first, then the voter file; a load panic prints nothing; otherwise it panics with the missing-voter-group fault exactly when some validator has no group, every printed line is a true mismatch naming a distinct validator, and with no panic exactly the mismatched validators are printed |

## Left out

- File opening and CSV reading (`os.Open`, `csv.NewReader`, `Read`) and their panics are not modelled: a file is its split rows. Quoting and read errors belong to the CSV library.
- Ragged rows are not rejected as Go rejects them. A `csv.Reader` with the default `FieldsPerRecord` of 0 fixes the field count at the header's, and `Read` then fails on any row with a different count, which the loaders turn into the "can not read" panic (handler/handler_test.go:219-222). The model reads any row that has the columns its parser needs, whatever the header's width. A row missing one of those columns raises the index panic of `LedgerRows.Field` in the model, where Go raises the reader panic.
- `common.HexToAddress` is the parameter `h`: its hex canonicalisation belongs to go-ethereum, and it never fails.
- `sendTransaction`, `balanceOf`, `time.Sleep` and printing are I/O. A transfer that would be sent is returned in `sent`, and a printed reconciliation line is returned in `printed`. The log lines of the loaders are dropped.
- Batches.TestBatchValidators: the key, the private key and the endpoint are network parameters and are not modelled.
- Batches.Reconcile: when it panics, the model says only which lines printed before the panic are true mismatches. In Go, which lines those are depends on map order.
- Batches.TestBatchTransaction: `toCoin(sum2)` in the printed line is not modelled, because it is binary floating point.
- `toCoin` and `toWei` are left out: they go through `big.Float` rounding.
- `handleRow1` and `Test02` are left out: they use a third-party decimal library and `toWei`.
- The network helpers of handler/handler.go and the logger setup are left out: they are foreign calls and process plumbing.
- handler/governance_test.go is not part of this model: ABI data, thin wrappers over `abi.Pack` and network tests.
- `TestMakeAddress`, `Test_getActiveVotesForValidator`, `Test03`, `Test04` and the other network-driven tests are left out: key generation and node calls.
- Integers are unbounded like `big.Int`, so there is no overflow to model.
