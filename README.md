# Transaction ledger engine: a Dafny model

This project models the accounting kernel of a batch payments engine. The engine reads rows of
`type, client, tx, amount`. Each row is trimmed and decoded into a `Record`. The record is then
applied to two tables:

- the client table, from client id (`u16`) to account (available, held, total, locked);
- the transaction log, from tx id (`u32`) to logged deposit (kind, client, amount, dispute flag).

The five kinds of record are deposit, withdrawal, dispute, resolve and chargeback.

The model has eight modules:

- `Base`: Option, Result and Outcome wrappers, the `u16`/`u32` ranges and byte strings.
- `Errors`: the database error enumeration.
- `Client`: the account. It is a value datatype `Account` with pure primitives. Beside it is the
  in-place object `ClientAccountState`, whose methods are proved to perform exactly those
  primitives.
- `Kinds`: the transaction kind and its byte-string decoder.
- `Records`: the record, field trimming, the decoder `Decode`, the in-place `ByteRecord.Trim` and
  `FromByteRecord`.
- `Protocol`: the logged transaction.
- `Ledger`: the pure description of what one record does to both tables (`ProcessRecord`) and
  what a run of rows does (`Run`). It also holds the invariant and the lemmas about the engine's
  behaviour.
- `LedgerEngine`: the engine object. It holds the two tables as fields and updates them in place,
  and each of its methods is proved equal to the matching `Ledger` function.

The source's unit tests are methods whose `ensures` state the values each test asserts.

The model follows the code as written. That code does not apply a record atomically: when an
update stops at an error, every table change made before it stays in place. Examples:

- A dispute whose client does not own the entry still sets its flag.
- A duplicate deposit id is refused only after the amount is credited.
- A chargeback whose debit is refused keeps the release of the held funds.

The lemmas state these effects precisely (`DepositEffect`, `DisputeEffect`,
`ChargebackKeepsRelease`, `DuplicateDepositCredits`). They also prove what does hold:
`FailureKeepsBalances` shows that under the invariant, a failing record changes no balance unless
it is a duplicate deposit. Available funds are not kept non-negative either: a deposit that is
withdrawn and then disputed leaves the client with negative available funds
(`DisputeCanOverdraw`). Locked accounts are not blocked from anything (`LockedNeverBlocks`).

The doc comment of `sub` (src/engine/db/client.rs:56-59) says the operation refuses insufficient
credit. The code does not check this. The check is made by the engine's withdrawal arm instead,
and the model follows the code.

## Model

| member | source | states |
|---|---|---|
| Client.Account.New | src/engine/db/client.rs:18-26 | a new account is unlocked with zero available, held and total |
| Client.Account.Add | src/engine/db/client.rs:46-54 | succeeds exactly when the amount is non-negative, adding it to available and total and leaving held and lock alone; otherwise fails with NegativeAmountEncountered |
| Client.Account.Sub | src/engine/db/client.rs:60-68 | succeeds exactly when the amount is non-negative (no sufficiency check), removing it from available and total; otherwise fails with NegativeAmountEncountered |
| Client.Account.Hold | src/engine/db/client.rs:84-88 | always succeeds: moves the amount from available to held, total and lock unchanged |
| Client.Account.Unhold | src/engine/db/client.rs:92-101 | succeeds exactly when held covers the amount, moving it from held back to available; otherwise fails with NotEnoughHeldValue |
| Client.Account.Lock | src/engine/db/client.rs:71-74 | sets the lock and changes nothing else |
| Client.Account.Unlock | src/engine/db/client.rs:78-81 | clears the lock and changes nothing else |
| Client.PrimitivesKeepBalance | src/engine/db/client.rs:18-101 | a new account balances (total = available + held), and every primitive that succeeds keeps a balanced account balanced |
| Client.HoldUnholdRoundTrip | src/engine/db/client.rs:84-101 | releasing what was just held succeeds and restores the account |
| Client.AddSubRoundTrip | src/engine/db/client.rs:46-68 | debiting a non-negative amount just credited succeeds and restores the account |
| Client.LockIdempotent | src/engine/db/client.rs:71-81 | locking twice is locking once; unlocking undoes locking an unlocked account |
| Client.ClientAccountState.constructor | src/engine/db/client.rs:18-26 | the object starts as the zero, unlocked account |
| Client.ClientAccountState.Add | src/engine/db/client.rs:46-54 | updates the fields in place exactly as Account.Add, leaving them unchanged on failure |
| Client.ClientAccountState.Sub | src/engine/db/client.rs:60-68 | updates the fields in place exactly as Account.Sub, leaving them unchanged on failure |
| Client.ClientAccountState.Lock | src/engine/db/client.rs:71-74 | sets the lock field in place and reports success |
| Client.ClientAccountState.Unlock | src/engine/db/client.rs:78-81 | clears the lock field in place and reports success |
| Client.ClientAccountState.Hold | src/engine/db/client.rs:84-88 | updates the fields in place exactly as Account.Hold and reports success |
| Client.ClientAccountState.Unhold | src/engine/db/client.rs:92-101 | updates the fields in place exactly as Account.Unhold, leaving them unchanged on failure |
| Client.TestSub | src/engine/db/client.rs:104-111 | add 3 then sub 1 leaves 2 available and 2 total |
| Client.TestAdd | src/engine/db/client.rs:113-120 | add 10 leaves 10 available and 10 total; adding -1 fails |
| Client.TestHold | src/engine/db/client.rs:122-130 | add 3 then hold 1 leaves total 3 and held 1 |
| Kinds.TransactionKind.New | src/engine/protocol.rs:20-29 | a decoded kind is one whose name is exactly the input bytes |
| Kinds.NamesDistinct | src/engine/protocol.rs:20-29 | the five names are pairwise different, so the decoder is unambiguous |
| Kinds.NameRoundTrip | src/engine/protocol.rs:20-29 | decoding the name of every kind gives that kind back |
| Kinds.NewExactlyNames | src/engine/protocol.rs:20-29 | the decoder yields a kind if and only if the input is that kind's name |
| Kinds.NewRejectsEmptyAndCapitalised | src/engine/protocol.rs:20-29 | empty input and input starting with an upper-case letter decode to nothing |
| Kinds.DecoderExamples | src/engine/protocol.rs:62-78 | "withdrawal" decodes to Withdrawal; "Unknown_transaction_type" and the empty string decode to nothing |
| Records.ParseF32 | src/engine/record.rs:80-94 | an amount that fails to parse counts as 0.0; positive and negative infinity are refused; every other parsed value passes through |
| Records.Decode | src/engine/record.rs:32-58 | Parse error exactly when a field fails (kind, client, tx or an infinite amount); Invalid exactly when all parse and the amount is negative; otherwise the record of the parsed fields |
| Records.TrimStartIsSuffix | src/engine/record.rs:33 | trimming the front removes only a leading run of whitespace |
| Records.TrimEndIsPrefix | src/engine/record.rs:33 | trimming the back removes only a trailing run of whitespace |
| Records.TrimField | src/engine/record.rs:33 | a trimmed field has no whitespace at either end and is no longer than the input |
| Records.TrimFieldIsInnerSlice | src/engine/record.rs:33 | a trimmed field is a slice of the input with only whitespace cut off either side |
| Records.TrimFieldKeepsTrimmed | src/engine/record.rs:33 | a field that is already trimmed is left unchanged |
| Records.TrimFieldIdempotent | src/engine/record.rs:33 | trimming twice is trimming once |
| Records.TrimAll | src/engine/record.rs:33 | trimming a row keeps its length and trims every field |
| Records.TrimLeadingWhitespace | src/engine/record.rs:33 | whitespace padding before a trimmed field is removed |
| Records.ByteRecord.constructor | src/engine/record.rs:32 | the row object holds the given fields |
| Records.ByteRecord.Trim | src/engine/record.rs:33 | trims the row object's fields in place |
| Records.FromByteRecord | src/engine/record.rs:32-58 | trims the row in place, then returns exactly the decoding of the trimmed fields |
| Records.UnparsableAmountIsZero | src/engine/record.rs:34-54 | a row whose amount does not parse decodes to a record with amount 0.0 |
| Records.DecodePaddedRow | src/engine/record.rs:32-39 | a row with whitespace before the client field decodes like the unpadded row |
| Records.TestRecordParsing | src/engine/record.rs:106-118 | "deposit", "    1", "3", "2.0" decodes to a deposit by client 1, tx 3, amount 2.0 |
| Records.TestParsingBadRecordTransaction | src/engine/record.rs:120-126 | an unknown kind is a Parse error |
| Records.TestParsingNumericalBadRecord | src/engine/record.rs:128-134 | a client field that is not a number is a Parse error |
| Records.TestRecordIsValid | src/engine/record.rs:136-142 | a negative amount is an Invalid error |
| Records.TestRecordDisallowNegInfinity | src/engine/record.rs:144-152 | an amount that overflows to negative infinity is a Parse error |
| Records.TestRecordDisallowInfinity | src/engine/record.rs:154-161 | an amount that overflows to infinity is a Parse error |
| Protocol.Transaction.New | src/engine/mod.rs:232-233 | a new log entry has the given kind, client and amount and is not in dispute |
| Protocol.Transaction.FromRecord | src/engine/protocol.rs:45-51 | the entry copies the record's kind, client and amount, starts out of dispute, and has a non-negative amount when the record is valid |
| Protocol.Transaction.SetDispute | src/engine/mod.rs:137 | sets the flag to the given value and leaves kind, client and amount unchanged |
| Protocol.SetDisputeOverwrites | src/engine/mod.rs:137-162 | only the last flag setting counts; flagging and unflagging an undisputed entry restores it |
| Ledger.EmptyInv | src/engine/db/mod.rs:19-24 | the empty tables satisfy the invariant |
| Ledger.DepositEffect | src/engine/mod.rs:113-123 | deposit creates a missing client; it credits a non-negative amount and refuses a negative one with the created account kept; a duplicate id is refused after the credit and the old entry is kept; otherwise the entry is logged |
| Ledger.WithdrawalEffect | src/engine/mod.rs:124-132 | withdrawal does nothing for an unknown client, is refused unchanged without enough available funds or with a negative amount, and otherwise debits available and total; the log is untouched |
| Ledger.DisputeEffect | src/engine/mod.rs:133-157 | unknown tx: TransactionNotFound, no change; otherwise the flag is set in every case, then ClientIdMismatch or ClientNotFound with accounts unchanged, or the entry's amount moved from available to held |
| Ledger.ResolveEffect | src/engine/mod.rs:158-174 | unknown tx: TransactionNotFound, no change; otherwise the flag is cleared in every case, then ClientNotFound or NotEnoughHeldValue with accounts unchanged, or the amount moved from held to available |
| Ledger.ChargebackEffect | src/engine/mod.rs:175-191 | unknown tx: success, no change; undisputed entry: TransactionNotInDispute; missing client or too little held: failure, no change; otherwise held and total drop by the amount and the account is locked; the log is untouched |
| Ledger.ChargebackKeepsRelease | src/engine/mod.rs:181-182 | a chargeback whose debit is refused keeps the release it already made |
| Ledger.ProcessRecordLog | src/engine/mod.rs:84-106 | log entries are never removed and change only in their dispute flag, and only by dispute or resolve; the only entry added is the record's own, by a successful deposit |
| Ledger.DepositKeepsInv | src/engine/mod.rs:113-123 | a deposit keeps the invariant: accounts balance with non-negative held, and entries are non-negative deposits of known clients |
| Ledger.WithdrawalKeepsInv | src/engine/mod.rs:124-132 | a withdrawal keeps the invariant |
| Ledger.DisputeKeepsInv | src/engine/mod.rs:133-157 | a dispute keeps the invariant |
| Ledger.ResolveKeepsInv | src/engine/mod.rs:158-174 | a resolve keeps the invariant |
| Ledger.ChargebackKeepsInv | src/engine/mod.rs:175-191 | a chargeback keeps the invariant |
| Ledger.ProcessRecordInv | src/engine/mod.rs:84-88 | every record, whatever its outcome, keeps the invariant |
| Ledger.RunInv | src/engine/mod.rs:50-76 | a whole run of rows keeps the invariant |
| Ledger.FailureKeepsBalances | src/engine/mod.rs:109-197 | under the invariant, a failing record other than a duplicate deposit leaves every existing account unchanged and adds only fresh accounts |
| Ledger.DisputeFindsClient | src/engine/mod.rs:143-153 | under the invariant, a dispute by the entry's owner always succeeds |
| Ledger.DisputeResolveRoundTrip | src/engine/mod.rs:133-174 | dispute then resolve by the owner both succeed, give back every account unchanged, and leave the entry out of dispute |
| Ledger.LockedNeverBlocks | src/engine/mod.rs:109-197 | clearing every lock first changes neither the outcome of a record nor the tables it produces, apart from locks |
| Ledger.DisputeCanOverdraw | src/engine/mod.rs:113-157 | deposit x, withdraw x, dispute the deposit: every step succeeds and the client has -x available, x held |
| Ledger.DuplicateDepositCredits | src/engine/mod.rs:84-106 | a second deposit with the same id fails with TransactionAlreadyExists, yet its amount is credited and the first entry is kept |
| LedgerEngine.Engine.constructor | src/engine/mod.rs:30-36 | the engine starts with empty tables |
| LedgerEngine.Engine.Mock | src/engine/mod.rs:223-242 | the test fixture: clients 1 and 2 with 10 and 20 deposited, logged under tx 1 and 2 |
| LedgerEngine.Engine.UpdateTransactionDb | src/engine/mod.rs:92-106 | updates the log in place and returns exactly what Ledger.UpdateTransactionDb describes |
| LedgerEngine.Engine.UpdateClientDb | src/engine/mod.rs:109-197 | updates both tables in place and returns exactly what Ledger.UpdateClientDb describes |
| LedgerEngine.Engine.ProcessRecord | src/engine/mod.rs:84-88 | updates both tables in place and returns exactly what Ledger.ProcessRecord describes |
| LedgerEngine.Engine.Process | src/engine/mod.rs:50-76 | processing the rows leaves the tables Ledger.Run describes: undecodable rows and failing records are skipped |
| LedgerEngine.TestDeposit | src/engine/mod.rs:244-262 | deposit 10 for client 1 succeeds, total 20, tx 3 logged with 10 |
| LedgerEngine.TestWithdrawal | src/engine/mod.rs:264-277 | withdrawal 3 by client 1 succeeds, total 7 |
| LedgerEngine.TestDispute | src/engine/mod.rs:279-306 | deposit 3 then dispute: total 13, available 10, held 3, entry disputed |
| LedgerEngine.TestResolve | src/engine/mod.rs:308-345 | deposit, dispute, resolve all succeed: held 0, available 13, total 13, entry not disputed |
| LedgerEngine.TestChargeback | src/engine/mod.rs:347-385 | deposit, dispute, chargeback all succeed: locked, held 0, available 10, total 10, entry still disputed |

## Left out

- Engine::process (src/engine/mod.rs:39-80): opening the CSV file, checking its header, the read errors, the progress counter and its printing are I/O and are left out. The loop itself is `LedgerEngine.Engine.Process`, which runs over rows that have already been read.
- print_db (src/engine/mod.rs:200-213) and src/main.rs are output and argument handling; they are not part of this model.
- Floating point: amounts are exact reals. f32 rounding, NaN and loss of precision are not modelled. Overflow to infinity is modelled only where the decoder tests it.
- Records.Parsers: the `FromStr` parses of `u16`, `u32` and `f32` (src/engine/record.rs:70-94) and the unchecked UTF-8 view are a parameter of the model. The tests state, as preconditions, what the standard parsers return on their inputs.
- Trimming: the csv crate's `ByteRecord::trim` is not part of this model. It is modelled as removing ASCII whitespace (space, tab, line feed, form feed, carriage return) from both ends of each field.
- Rows with fewer than four fields make the source panic on `record[3]`. `Records.Decode`, `Ledger.Ingest`, `Ledger.Run` and `LedgerEngine.Engine.Process` therefore require four fields.
- Transaction::new, set_dispute and is_in_dispute are called (src/engine/mod.rs:137, 162, 179, 232) but their definitions are not part of this model. They are modelled as a `disputed` flag that starts false and is overwritten. The getters `amount` and `client_id` are field reads.
- The accessors of ClientAccountState (src/engine/db/client.rs:29-43) and of DB (src/engine/db/mod.rs:26-41) are field reads.
- The `_ => UnknownTransaction` arm (src/engine/mod.rs:192-193) cannot be reached, because all five kinds are matched. Its EngineError wrapping is left out, and database errors are returned directly.
- Protocol.Transaction.SetDispute: the source mutates the entry in place. The model replaces the entry in the log map, which gives the same observable table because entries are owned by the map.
- The engine's client table stores `Account` values, as the map owns its entries. The in-place account object, `ClientAccountState`, is proved against the same primitives; the engine does not update such objects through references.
