/** What applying one record does to the two tables of the engine: the
    client table (client id to account) and the transaction log (tx id to
    logged deposit). Effects follow the order in which the engine performs
    them, so a record that fails part-way leaves its earlier effects in
    place. */
module Ledger {
  import opened Base
  import opened Errors
  import opened Kinds
  import opened Client
  import opened Records
  import opened Protocol

  /** The two tables. */
  datatype Db = Db(clients: map<u16, Account>, transactions: map<u32, Transaction>)

  /** The result of an update together with the tables it leaves behind,
      which may differ from the tables before even when it failed. */
  datatype Step = Step(outcome: Outcome<DbError>, db: Db)

  /** The client table with one account replaced or added. */
  function SetAccount(db: Db, client: u16, a: Account): (d: Db)
    ensures d.clients == db.clients[client := a] && d.transactions == db.transactions
  {
    db.(clients := db.clients[client := a])
  }

  /** The log with one entry replaced or added. */
  function SetTransaction(db: Db, tx: u32, t: Transaction): (d: Db)
    ensures d.transactions == db.transactions[tx := t] && d.clients == db.clients
  {
    db.(transactions := db.transactions[tx := t])
  }

  /** Deposit: the account is created as a fresh one when missing, then
      credited. A refused credit still leaves the created account. */
  function ApplyDeposit(db: Db, rec: Record): Step
  {
    var db1 := if rec.client in db.clients then db else SetAccount(db, rec.client, Account.New());
    match db1.clients[rec.client].Add(rec.amount)
    case Ok(a) => Step(Pass, SetAccount(db1, rec.client, a))
    case Err(e) => Step(Fail(e), db1)
  }

  /** Withdrawal: nothing happens for an unknown client; otherwise the
      amount must be available, and is then debited. */
  function ApplyWithdrawal(db: Db, rec: Record): Step
  {
    if rec.client !in db.clients then Step(Pass, db)
    else
      var a := db.clients[rec.client];
      if a.available >= rec.amount then
        match a.Sub(rec.amount)
        case Ok(a') => Step(Pass, SetAccount(db, rec.client, a'))
        case Err(e) => Step(Fail(e), db)
      else Step(Fail(NotEnoughAvailableCredit), db)
  }

  /** Dispute: the logged entry is flagged first; then the record's client
      must own it and must have an account, whose available funds are held. */
  function ApplyDispute(db: Db, rec: Record): Step
  {
    if rec.tx !in db.transactions then Step(Fail(TransactionNotFound), db)
    else
      var t := db.transactions[rec.tx].SetDispute(true);
      var db1 := SetTransaction(db, rec.tx, t);
      if t.clientId != rec.client then Step(Fail(ClientIdMismatch), db1)
      else if rec.client in db1.clients then
        Step(Pass, SetAccount(db1, rec.client, db1.clients[rec.client].Hold(t.amount)))
      else Step(Fail(ClientNotFound), db1)
  }

  /** Resolve: the flag is cleared first, whether or not the entry was
      disputed; then the logged amount is released on the record's client,
      with no check that this client owns the entry. */
  function ApplyResolve(db: Db, rec: Record): Step
  {
    if rec.tx !in db.transactions then Step(Fail(TransactionNotFound), db)
    else
      var t := db.transactions[rec.tx].SetDispute(false);
      var db1 := SetTransaction(db, rec.tx, t);
      if rec.client in db1.clients then
        match db1.clients[rec.client].Unhold(t.amount)
        case Ok(a) => Step(Pass, SetAccount(db1, rec.client, a))
        case Err(e) => Step(Fail(e), db1)
      else Step(Fail(ClientNotFound), db1)
  }

  /** Chargeback: nothing happens for an unknown entry; a disputed one is
      released, debited and the record's client locked. The flag stays set.
      A failing debit leaves the release in place. */
  function ApplyChargeback(db: Db, rec: Record): Step
  {
    if rec.tx !in db.transactions then Step(Pass, db)
    else
      var t := db.transactions[rec.tx];
      if t.IsInDispute() then
        if rec.client in db.clients then
          match db.clients[rec.client].Unhold(t.amount)
          case Err(e) => Step(Fail(e), db)
          case Ok(a1) =>
            match a1.Sub(t.amount)
            case Err(e) => Step(Fail(e), SetAccount(db, rec.client, a1))
            case Ok(a2) => Step(Pass, SetAccount(db, rec.client, a2.Lock()))
        else Step(Fail(ClientNotFound), db)
      else Step(Fail(TransactionNotInDispute), db)
  }

  /** The client-table half of applying a record. */
  function UpdateClientDb(db: Db, rec: Record): Step
  {
    match rec.kind
    case Deposit => ApplyDeposit(db, rec)
    case Withdrawal => ApplyWithdrawal(db, rec)
    case Dispute => ApplyDispute(db, rec)
    case Resolve => ApplyResolve(db, rec)
    case Chargeback => ApplyChargeback(db, rec)
  }

  /** The log half of applying a record: only deposits are logged, and a
      tx id already in the log is refused without overwriting its entry. */
  function UpdateTransactionDb(db: Db, rec: Record): Step
  {
    if rec.kind == Deposit then
      if rec.tx in db.transactions then Step(Fail(TransactionAlreadyExists), db)
      else Step(Pass, SetTransaction(db, rec.tx, Transaction.FromRecord(rec)))
    else Step(Pass, db)
  }

  /** Applying a record: the client table first, then the log, stopping at
      the first failure without undoing anything. */
  function ProcessRecord(db: Db, rec: Record): Step
  {
    var s := UpdateClientDb(db, rec);
    if s.outcome.Fail? then s else UpdateTransactionDb(s.db, rec)
  }

  /** One input row: trimmed and decoded, then applied if it decodes; a
      row that does not decode, and a record that fails, change nothing
      beyond what the failing record already did. */
  function Ingest(p: Parsers, db: Db, row: seq<Bytes>): Db
    requires |row| >= 4
  {
    match Decode(p, TrimAll(row))
    case Ok(rec) => ProcessRecord(db, rec).db
    case Err(_) => db
  }

  /** A run over input rows, one after the other. */
  function Run(p: Parsers, db: Db, rows: seq<seq<Bytes>>): Db
    requires forall i :: 0 <= i < |rows| ==> |rows[i]| >= 4
    decreases |rows|
  {
    if rows == [] then db else Run(p, Ingest(p, db, rows[0]), rows[1..])
  }

  /** What holds of the tables before any record and after every record:
      each account balances and holds nothing negative; each logged entry
      is a deposit of a non-negative amount whose client has an account. */
  ghost predicate Inv(db: Db)
  {
    && (forall c :: c in db.clients ==> db.clients[c].Balanced() && db.clients[c].held >= 0.0)
    && (forall tx :: tx in db.transactions ==>
          && db.transactions[tx].kind == Deposit
          && db.transactions[tx].amount >= 0.0
          && db.transactions[tx].clientId in db.clients)
  }

  /** The empty tables satisfy the invariant. */
  lemma EmptyInv()
    ensures Inv(Db(map[], map[]))
  {
  }

  /** Deposit creates a fresh account for an unseen client and credits it.
      A negative amount is refused after the account is created. An amount
      whose tx id is already logged is refused after the credit, which is
      not undone, and the old entry is kept; otherwise the entry is logged. */
  lemma DepositEffect(db: Db, rec: Record)
    requires rec.kind == Deposit
    ensures var s := ProcessRecord(db, rec);
      var before := if rec.client in db.clients then db.clients[rec.client] else Account.New();
      var after := s.db.clients[rec.client];
      && s.db.clients.Keys == db.clients.Keys + {rec.client}
      && (forall c :: c in db.clients && c != rec.client ==> s.db.clients[c] == db.clients[c])
      && (rec.amount < 0.0 ==>
            && s.outcome == Fail(NegativeAmountEncountered)
            && after == before
            && s.db.transactions == db.transactions)
      && (rec.amount >= 0.0 ==>
            && after.available == before.available + rec.amount
            && after.total == before.total + rec.amount
            && after.held == before.held && after.locked == before.locked)
      && (rec.amount >= 0.0 && rec.tx in db.transactions ==>
            && s.outcome == Fail(TransactionAlreadyExists)
            && s.db.transactions == db.transactions)
      && (rec.amount >= 0.0 && rec.tx !in db.transactions ==>
            && s.outcome == Pass
            && s.db.transactions == db.transactions[rec.tx := Transaction.New(Deposit, rec.client, rec.amount)])
  {
    var before := if rec.client in db.clients then db.clients[rec.client] else Account.New();
    var db1 := if rec.client in db.clients then db else SetAccount(db, rec.client, Account.New());
    assert db1.clients.Keys == db.clients.Keys + {rec.client};
    assert db1.clients[rec.client] == before;
    if rec.amount < 0.0 {
      assert ProcessRecord(db, rec) == Step(Fail(NegativeAmountEncountered), db1);
    } else {
      var d := SetAccount(db1, rec.client, before.Add(rec.amount).value);
      assert UpdateClientDb(db, rec) == Step(Pass, d);
      assert ProcessRecord(db, rec) == UpdateTransactionDb(d, rec);
    }
  }

  /** Withdrawal debits the record's client when enough is available, is
      refused with nothing changed otherwise, and does nothing for an
      unknown client. It never touches the log. */
  lemma WithdrawalEffect(db: Db, rec: Record)
    requires rec.kind == Withdrawal
    ensures var s := ProcessRecord(db, rec);
      && s.db.transactions == db.transactions
      && (rec.client !in db.clients ==> s == Step(Pass, db))
      && (rec.client in db.clients && db.clients[rec.client].available < rec.amount ==>
            s == Step(Fail(NotEnoughAvailableCredit), db))
      && (rec.client in db.clients && rec.amount < 0.0 <= db.clients[rec.client].available - rec.amount ==>
            s == Step(Fail(NegativeAmountEncountered), db))
      && (rec.client in db.clients && 0.0 <= rec.amount <= db.clients[rec.client].available ==>
            var a := db.clients[rec.client];
            && s.outcome == Pass
            && s.db.clients == db.clients[rec.client := Account(a.available - rec.amount, a.held, a.total - rec.amount, a.locked)])
  {
  }

  /** Dispute of an unknown tx fails with nothing changed. Otherwise the
      entry is flagged in every case; a record naming another client than the
      entry's fails with the flag left set; otherwise the entry's amount is
      held on the client's account. */
  lemma DisputeEffect(db: Db, rec: Record)
    requires rec.kind == Dispute
    ensures var s := ProcessRecord(db, rec);
      && (rec.tx !in db.transactions ==> s == Step(Fail(TransactionNotFound), db))
      && (rec.tx in db.transactions ==>
            var t := db.transactions[rec.tx];
            && s.db.transactions == db.transactions[rec.tx := t.SetDispute(true)]
            && (t.clientId != rec.client ==> s.outcome == Fail(ClientIdMismatch) && s.db.clients == db.clients)
            && (t.clientId == rec.client && rec.client !in db.clients ==>
                  s.outcome == Fail(ClientNotFound) && s.db.clients == db.clients)
            && (t.clientId == rec.client && rec.client in db.clients ==>
                  var a := db.clients[rec.client];
                  && s.outcome == Pass
                  && s.db.clients == db.clients[rec.client := Account(a.available - t.amount, a.held + t.amount, a.total, a.locked)]))
  {
  }

  /** Resolve of an unknown tx fails with nothing changed. Otherwise the
      flag is cleared in every case, and the entry's amount is released on
      the record's client if that client exists and holds enough; if not,
      the record fails with only the flag changed. */
  lemma ResolveEffect(db: Db, rec: Record)
    requires rec.kind == Resolve
    ensures var s := ProcessRecord(db, rec);
      && (rec.tx !in db.transactions ==> s == Step(Fail(TransactionNotFound), db))
      && (rec.tx in db.transactions ==>
            var t := db.transactions[rec.tx];
            && s.db.transactions == db.transactions[rec.tx := t.SetDispute(false)]
            && (rec.client !in db.clients ==> s.outcome == Fail(ClientNotFound) && s.db.clients == db.clients)
            && (rec.client in db.clients && db.clients[rec.client].held < t.amount ==>
                  s.outcome == Fail(NotEnoughHeldValue) && s.db.clients == db.clients)
            && (rec.client in db.clients && db.clients[rec.client].held >= t.amount ==>
                  var a := db.clients[rec.client];
                  && s.outcome == Pass
                  && s.db.clients == db.clients[rec.client := Account(a.available + t.amount, a.held - t.amount, a.total, a.locked)]))
  {
  }

  /** Chargeback of an unknown tx does nothing and succeeds; of an entry
      not under dispute fails with nothing changed. For a disputed entry
      whose amount is held and not negative, held and total drop by it,
      available is unchanged and the record's client is locked; the flag
      stays set. It never changes the log. */
  lemma ChargebackEffect(db: Db, rec: Record)
    requires rec.kind == Chargeback
    ensures var s := ProcessRecord(db, rec);
      && s.db.transactions == db.transactions
      && (rec.tx !in db.transactions ==> s == Step(Pass, db))
      && (rec.tx in db.transactions && !db.transactions[rec.tx].IsInDispute() ==>
            s == Step(Fail(TransactionNotInDispute), db))
      && (rec.tx in db.transactions && db.transactions[rec.tx].IsInDispute() ==>
            var t := db.transactions[rec.tx];
            && (rec.client !in db.clients ==> s == Step(Fail(ClientNotFound), db))
            && (rec.client in db.clients && db.clients[rec.client].held < t.amount ==>
                  s == Step(Fail(NotEnoughHeldValue), db))
            && (rec.client in db.clients && 0.0 <= t.amount <= db.clients[rec.client].held ==>
                  var a := db.clients[rec.client];
                  && s.outcome == Pass
                  && s.db.clients == db.clients[rec.client := Account(a.available, a.held - t.amount, a.total - t.amount, true)]))
  {
  }

  /** A chargeback is not atomic: a disputed entry with a negative amount
      is first released on the record's client and then refused by the
      debit, and the release stays in place. */
  lemma ChargebackKeepsRelease(db: Db, rec: Record)
    requires rec.kind == Chargeback && rec.tx in db.transactions && db.transactions[rec.tx].IsInDispute()
    requires rec.client in db.clients
    requires db.transactions[rec.tx].amount < 0.0 <= db.clients[rec.client].held - db.transactions[rec.tx].amount
    ensures var s := ProcessRecord(db, rec);
      var a, x := db.clients[rec.client], db.transactions[rec.tx].amount;
      && s.outcome == Fail(NegativeAmountEncountered)
      && s.db == Db(db.clients[rec.client := Account(a.available + x, a.held - x, a.total, a.locked)], db.transactions)
  {
  }

  /** Log entries are never removed and never changed except for their
      dispute flag, which only a dispute or a resolve touches; the only entry
      ever added is the record's own, by a deposit that succeeded. */
  lemma ProcessRecordLog(db: Db, rec: Record)
    ensures var s := ProcessRecord(db, rec);
      && db.transactions.Keys <= s.db.transactions.Keys
      && (forall tx :: tx in db.transactions ==>
            s.db.transactions[tx].SetDispute(false) == db.transactions[tx].SetDispute(false))
      && (rec.kind != Dispute && rec.kind != Resolve ==>
            forall tx :: tx in db.transactions ==> s.db.transactions[tx] == db.transactions[tx])
      && (forall tx :: tx in s.db.transactions && tx !in db.transactions ==>
            && tx == rec.tx && rec.kind == Deposit && s.outcome == Pass
            && s.db.transactions[tx] == Transaction.FromRecord(rec))
  {
    match rec.kind
    case Deposit => DepositEffect(db, rec);
    case Withdrawal => WithdrawalEffect(db, rec);
    case Dispute => DisputeEffect(db, rec);
    case Resolve => ResolveEffect(db, rec);
    case Chargeback => ChargebackEffect(db, rec);
  }

  lemma DepositKeepsInv(db: Db, rec: Record)
    requires Inv(db) && rec.kind == Deposit
    ensures Inv(ProcessRecord(db, rec).db)
  {
    DepositEffect(db, rec);
  }

  lemma WithdrawalKeepsInv(db: Db, rec: Record)
    requires Inv(db) && rec.kind == Withdrawal
    ensures Inv(ProcessRecord(db, rec).db)
  {
    WithdrawalEffect(db, rec);
  }

  lemma DisputeKeepsInv(db: Db, rec: Record)
    requires Inv(db) && rec.kind == Dispute
    ensures Inv(ProcessRecord(db, rec).db)
  {
    DisputeEffect(db, rec);
  }

  lemma ResolveKeepsInv(db: Db, rec: Record)
    requires Inv(db) && rec.kind == Resolve
    ensures Inv(ProcessRecord(db, rec).db)
  {
    ResolveEffect(db, rec);
  }

  lemma ChargebackKeepsInv(db: Db, rec: Record)
    requires Inv(db) && rec.kind == Chargeback
    ensures Inv(ProcessRecord(db, rec).db)
  {
    ChargebackEffect(db, rec);
  }

  /** Every record keeps the invariant, whatever it does. */
  lemma ProcessRecordInv(db: Db, rec: Record)
    requires Inv(db)
    ensures Inv(ProcessRecord(db, rec).db)
  {
    match rec.kind
    case Deposit => DepositKeepsInv(db, rec);
    case Withdrawal => WithdrawalKeepsInv(db, rec);
    case Dispute => DisputeKeepsInv(db, rec);
    case Resolve => ResolveKeepsInv(db, rec);
    case Chargeback => ChargebackKeepsInv(db, rec);
  }

  /** A whole run keeps the invariant. */
  lemma {:induction false} RunInv(p: Parsers, db: Db, rows: seq<seq<Bytes>>)
    requires forall i :: 0 <= i < |rows| ==> |rows[i]| >= 4
    requires Inv(db)
    ensures Inv(Run(p, db, rows))
    decreases |rows|
  {
    if rows != [] {
      var next := Ingest(p, db, rows[0]);
      if Decode(p, TrimAll(rows[0])).Ok? {
        ProcessRecordInv(db, Decode(p, TrimAll(rows[0])).value);
      }
      RunInv(p, next, rows[1..]);
    }
  }

  /** Under the invariant, a failed record changes no existing balance, the
      only account it can add is a fresh one, and the only failure that
      keeps an earlier effect on a balance is a duplicate deposit, whose
      credit stays. */
  lemma FailureKeepsBalances(db: Db, rec: Record)
    requires Inv(db)
    ensures var s := ProcessRecord(db, rec);
      s.outcome.Fail? && s.outcome != Fail(TransactionAlreadyExists) ==>
        && (forall c :: c in db.clients ==> c in s.db.clients && s.db.clients[c] == db.clients[c])
        && (forall c :: c in s.db.clients && c !in db.clients ==> s.db.clients[c] == Account.New())
  {
    match rec.kind
    case Deposit => DepositEffect(db, rec);
    case Withdrawal => WithdrawalEffect(db, rec);
    case Dispute => DisputeEffect(db, rec);
    case Resolve => ResolveEffect(db, rec);
    case Chargeback =>
      ChargebackEffect(db, rec);
      if rec.tx in db.transactions && db.transactions[rec.tx].IsInDispute() && rec.client in db.clients {
        assert db.transactions[rec.tx].amount >= 0.0;
      }
  }

  /** Under the invariant, a dispute by the client that owns the entry never
      fails for a missing account: that client made the deposit. */
  lemma DisputeFindsClient(db: Db, rec: Record)
    requires Inv(db) && rec.kind == Dispute
    requires rec.tx in db.transactions && db.transactions[rec.tx].clientId == rec.client
    ensures ProcessRecord(db, rec).outcome == Pass
  {
    DisputeEffect(db, rec);
  }

  /** Disputing a deposit and then resolving it, both by its owner, gives
      back every account as it was and leaves the entry out of dispute. */
  lemma DisputeResolveRoundTrip(db: Db, client: u16, tx: u32, x: real, y: real)
    requires Inv(db)
    requires tx in db.transactions && db.transactions[tx].clientId == client
    ensures var s1 := ProcessRecord(db, Record(Dispute, client, tx, x));
      var s2 := ProcessRecord(s1.db, Record(Resolve, client, tx, y));
      && s1.outcome == Pass && s2.outcome == Pass
      && s2.db.clients == db.clients
      && s2.db.transactions == db.transactions[tx := db.transactions[tx].SetDispute(false)]
  {
    var t := db.transactions[tx];
    var s1 := ProcessRecord(db, Record(Dispute, client, tx, x));
    DisputeEffect(db, Record(Dispute, client, tx, x));
    var a := db.clients[client];
    assert s1.db.clients[client].held == a.held + t.amount;
    ResolveEffect(s1.db, Record(Resolve, client, tx, y));
    assert s1.db.transactions[tx].amount == t.amount;
    HoldUnholdRoundTrip(a, t.amount);
  }

  /** Every account with its lock cleared. */
  function Unlocked(db: Db): (d: Db)
    ensures d.clients.Keys == db.clients.Keys && d.transactions == db.transactions
    ensures forall c :: c in d.clients ==> !d.clients[c].locked
  {
    Db(map c | c in db.clients :: db.clients[c].Unlock(), db.transactions)
  }

  /** Two tables that agree apart from locks agree once locks are cleared. */
  lemma UnlockedEqual(d1: Db, d2: Db)
    requires d1.clients.Keys == d2.clients.Keys && d1.transactions == d2.transactions
    requires forall c :: c in d1.clients ==> d1.clients[c].Unlock() == d2.clients[c].Unlock()
    ensures Unlocked(d1) == Unlocked(d2)
  {
  }

  /** Applying `rec` ignores every lock: with all locks cleared beforehand
      it has the same outcome, and the same tables apart from the locks. */
  ghost predicate IgnoresLocks(db: Db, rec: Record)
  {
    var s, t := ProcessRecord(db, rec), ProcessRecord(Unlocked(db), rec);
    t.outcome == s.outcome && Unlocked(t.db) == Unlocked(s.db)
  }

  lemma DepositIgnoresLocks(db: Db, rec: Record)
    requires rec.kind == Deposit
    ensures IgnoresLocks(db, rec)
  {
    var u := Unlocked(db);
    var s, t := ProcessRecord(db, rec), ProcessRecord(u, rec);
    DepositEffect(db, rec);
    DepositEffect(u, rec);
    assert t.outcome == s.outcome;
    forall c | c in t.db.clients
      ensures t.db.clients[c].Unlock() == s.db.clients[c].Unlock()
    {
      if c != rec.client {
        assert t.db.clients[c] == u.clients[c];
      }
    }
    UnlockedEqual(t.db, s.db);
  }

  lemma WithdrawalIgnoresLocks(db: Db, rec: Record)
    requires rec.kind == Withdrawal
    ensures IgnoresLocks(db, rec)
  {
    var u := Unlocked(db);
    WithdrawalEffect(db, rec);
    WithdrawalEffect(u, rec);
    UnlockedEqual(ProcessRecord(u, rec).db, ProcessRecord(db, rec).db);
  }

  lemma DisputeIgnoresLocks(db: Db, rec: Record)
    requires rec.kind == Dispute
    ensures IgnoresLocks(db, rec)
  {
    var u := Unlocked(db);
    DisputeEffect(db, rec);
    DisputeEffect(u, rec);
    UnlockedEqual(ProcessRecord(u, rec).db, ProcessRecord(db, rec).db);
  }

  lemma ResolveIgnoresLocks(db: Db, rec: Record)
    requires rec.kind == Resolve
    ensures IgnoresLocks(db, rec)
  {
    var u := Unlocked(db);
    ResolveEffect(db, rec);
    ResolveEffect(u, rec);
    UnlockedEqual(ProcessRecord(u, rec).db, ProcessRecord(db, rec).db);
  }

  lemma ChargebackIgnoresLocks(db: Db, rec: Record)
    requires rec.kind == Chargeback
    ensures IgnoresLocks(db, rec)
  {
    var u := Unlocked(db);
    ChargebackEffect(db, rec);
    ChargebackEffect(u, rec);
    UnlockedEqual(ProcessRecord(u, rec).db, ProcessRecord(db, rec).db);
  }

  /** A lock never stops anything: applying a record to the tables with all
      locks cleared gives the same outcome, and the same tables apart from
      the locks, as applying it to the tables as they are. */
  lemma LockedNeverBlocks(db: Db, rec: Record)
    ensures ProcessRecord(Unlocked(db), rec).outcome == ProcessRecord(db, rec).outcome
    ensures Unlocked(ProcessRecord(Unlocked(db), rec).db) == Unlocked(ProcessRecord(db, rec).db)
  {
    match rec.kind
    case Deposit => DepositIgnoresLocks(db, rec);
    case Withdrawal => WithdrawalIgnoresLocks(db, rec);
    case Dispute => DisputeIgnoresLocks(db, rec);
    case Resolve => ResolveIgnoresLocks(db, rec);
    case Chargeback => ChargebackIgnoresLocks(db, rec);
  }

  /** A new client that deposits `x` and withdraws all of it is left with
      nothing, and the deposit stays logged. */
  lemma DepositThenWithdrawAll(db: Db, client: u16, tx: u32, tx2: u32, x: real)
    requires client !in db.clients && tx !in db.transactions && x >= 0.0
    ensures var s1 := ProcessRecord(db, Record(Deposit, client, tx, x));
      var s2 := ProcessRecord(s1.db, Record(Withdrawal, client, tx2, x));
      && s1.outcome == Pass && s2.outcome == Pass
      && client in s2.db.clients && s2.db.clients[client] == Account(0.0, 0.0, 0.0, false)
      && tx in s2.db.transactions && s2.db.transactions[tx] == Transaction(Deposit, client, x, false)
  {
    var r1 := Record(Deposit, client, tx, x);
    DepositEffect(db, r1);
    WithdrawalEffect(ProcessRecord(db, r1).db, Record(Withdrawal, client, tx2, x));
  }

  /** Available funds can go negative: a new client that deposits `x`,
      withdraws all of it and then disputes the deposit has `-x` available,
      and every step succeeds. */
  lemma DisputeCanOverdraw(db: Db, client: u16, tx: u32, tx2: u32, x: real)
    requires client !in db.clients && tx !in db.transactions && x > 0.0
    ensures var s1 := ProcessRecord(db, Record(Deposit, client, tx, x));
      var s2 := ProcessRecord(s1.db, Record(Withdrawal, client, tx2, x));
      var s3 := ProcessRecord(s2.db, Record(Dispute, client, tx, 0.0));
      && s1.outcome == Pass && s2.outcome == Pass && s3.outcome == Pass
      && client in s3.db.clients && s3.db.clients[client] == Account(-x, x, 0.0, false)
  {
    DepositThenWithdrawAll(db, client, tx, tx2, x);
    var s1 := ProcessRecord(db, Record(Deposit, client, tx, x));
    var s2 := ProcessRecord(s1.db, Record(Withdrawal, client, tx2, x));
    DisputeEmptied(s2.db, client, tx, x);
  }

  /** Disputing a deposit of `x` whose client has nothing left. */
  lemma DisputeEmptied(d: Db, client: u16, tx: u32, x: real)
    requires client in d.clients && d.clients[client] == Account(0.0, 0.0, 0.0, false)
    requires tx in d.transactions && d.transactions[tx] == Transaction(Deposit, client, x, false)
    ensures var s := ProcessRecord(d, Record(Dispute, client, tx, 0.0));
      s.outcome == Pass && client in s.db.clients && s.db.clients[client] == Account(-x, x, 0.0, false)
  {
    DisputeEffect(d, Record(Dispute, client, tx, 0.0));
  }

  /** A repeated deposit id is reported, yet its amount has been credited,
      and the entry first logged is kept. */
  lemma DuplicateDepositCredits(db: Db, client: u16, tx: u32, x: real, y: real)
    requires client !in db.clients && tx !in db.transactions && x >= 0.0 && y >= 0.0
    ensures var s1 := ProcessRecord(db, Record(Deposit, client, tx, x));
      var s2 := ProcessRecord(s1.db, Record(Deposit, client, tx, y));
      && s1.outcome == Pass
      && s2.outcome == Fail(TransactionAlreadyExists)
      && client in s2.db.clients && s2.db.clients[client] == Account(x + y, 0.0, x + y, false)
      && tx in s2.db.transactions && s2.db.transactions[tx].amount == x
  {
    var r1 := Record(Deposit, client, tx, x);
    DepositEffect(db, r1);
    DepositEffect(ProcessRecord(db, r1).db, Record(Deposit, client, tx, y));
  }
}
