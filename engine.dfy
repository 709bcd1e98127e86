/** The engine object: it owns the client table and the transaction log and
    updates them in place, record by record. Each method is proved to leave
    exactly the tables, and return exactly the outcome, that the `Ledger`
    functions of the same name describe. */
module LedgerEngine {
  import opened Base
  import opened Errors
  import opened Kinds
  import opened Client
  import opened Records
  import opened Protocol
  import Ledger

  class Engine {
    var clients: map<u16, Account>
    var transactions: map<u32, Transaction>

    /** The two tables as a value. */
    function Snapshot(): Ledger.Db
      reads this
    {
      Ledger.Db(clients, transactions)
    }

    /** An engine with empty tables. */
    constructor ()
      ensures clients == map[] && transactions == map[]
    {
      clients := map[];
      transactions := map[];
    }

    /** The fixture of the engine tests: client 1 with 10 deposited under
        tx 1, client 2 with 20 deposited under tx 2. */
    constructor Mock()
      ensures clients == map[1 := Account(10.0, 0.0, 10.0, false), 2 := Account(20.0, 0.0, 20.0, false)]
      ensures transactions == map[1 := Transaction(Deposit, 1, 10.0, false), 2 := Transaction(Deposit, 2, 20.0, false)]
    {
      var cas1 := new ClientAccountState();
      var cas2 := new ClientAccountState();
      var r1 := cas1.Add(10.0);
      var r2 := cas2.Add(20.0);
      var trx1 := Transaction.New(Deposit, 1, 10.0);
      var trx2 := Transaction.New(Deposit, 2, 20.0);
      clients := map[1 := cas1.State(), 2 := cas2.State()];
      transactions := map[1 := trx1, 2 := trx2];
    }

    /** Logs a deposit under its tx id unless that id is already logged;
        other kinds leave the log alone. */
    method UpdateTransactionDb(rec: Record) returns (r: Outcome<DbError>)
      modifies this
      ensures Ledger.Step(r, Snapshot()) == Ledger.UpdateTransactionDb(old(Snapshot()), rec)
    {
      var trxId := rec.tx;
      if rec.kind == Deposit {
        if trxId in transactions {
          return Fail(TransactionAlreadyExists);
        }
        var trx := Transaction.FromRecord(rec);
        transactions := transactions[trxId := trx];
      }
      return Pass;
    }

    /** Applies a record to the client table (and, for a dispute or a
        resolve, to the dispute flag of the logged entry), stopping at the
        first failure without undoing what was already done. */
    method UpdateClientDb(rec: Record) returns (r: Outcome<DbError>)
      modifies this
      ensures Ledger.Step(r, Snapshot()) == Ledger.UpdateClientDb(old(Snapshot()), rec)
    {
      var key := rec.client;
      match rec.kind {
        case Deposit =>
          if key !in clients {
            clients := clients[key := Account.New()];
          }
          var added := clients[key].Add(rec.amount);
          if added.Err? {
            return Fail(added.error);
          }
          clients := clients[key := added.value];
        case Withdrawal =>
          if key in clients {
            var cas := clients[key];
            if cas.available >= rec.amount {
              var subbed := cas.Sub(rec.amount);
              if subbed.Err? {
                return Fail(subbed.error);
              }
              clients := clients[key := subbed.value];
            } else {
              return Fail(NotEnoughAvailableCredit);
            }
          }
        case Dispute =>
          if rec.tx in transactions {
            transactions := transactions[rec.tx := transactions[rec.tx].SetDispute(true)];
            var trx := transactions[rec.tx];
            var amount := trx.amount;
            if trx.clientId != rec.client {
              return Fail(ClientIdMismatch);
            }
            if key in clients {
              clients := clients[key := clients[key].Hold(amount)];
            } else {
              return Fail(ClientNotFound);
            }
          } else {
            return Fail(TransactionNotFound);
          }
        case Resolve =>
          if rec.tx in transactions {
            transactions := transactions[rec.tx := transactions[rec.tx].SetDispute(false)];
            var amount := transactions[rec.tx].amount;
            if key in clients {
              var unheld := clients[key].Unhold(amount);
              if unheld.Err? {
                return Fail(unheld.error);
              }
              clients := clients[key := unheld.value];
            } else {
              return Fail(ClientNotFound);
            }
          } else {
            return Fail(TransactionNotFound);
          }
        case Chargeback =>
          if rec.tx in transactions {
            var trx := transactions[rec.tx];
            var amount := trx.amount;
            if trx.IsInDispute() {
              if key in clients {
                var unheld := clients[key].Unhold(amount);
                if unheld.Err? {
                  return Fail(unheld.error);
                }
                clients := clients[key := unheld.value];
                var subbed := clients[key].Sub(amount);
                if subbed.Err? {
                  return Fail(subbed.error);
                }
                clients := clients[key := subbed.value.Lock()];
              } else {
                return Fail(ClientNotFound);
              }
            } else {
              return Fail(TransactionNotInDispute);
            }
          }
      }
      return Pass;
    }

    /** Applies one record: the client table first, then the log. */
    method ProcessRecord(rec: Record) returns (r: Outcome<DbError>)
      modifies this
      ensures Ledger.Step(r, Snapshot()) == Ledger.ProcessRecord(old(Snapshot()), rec)
    {
      r := UpdateClientDb(rec);
      if r.Fail? {
        return;
      }
      r := UpdateTransactionDb(rec);
    }

    /** The processing loop over the rows of the input: each row is trimmed
        in place and decoded; a row that does not decode, and a record that
        fails, is skipped. */
    method Process(p: Parsers, rows: seq<seq<Bytes>>)
      requires forall i :: 0 <= i < |rows| ==> |rows[i]| >= 4
      modifies this
      ensures Snapshot() == Ledger.Run(p, old(Snapshot()), rows)
    {
      var i := 0;
      while i < |rows|
        invariant 0 <= i <= |rows|
        invariant Ledger.Run(p, old(Snapshot()), rows) == Ledger.Run(p, Snapshot(), rows[i..])
      {
        ghost var before := Snapshot();
        var row := new ByteRecord(rows[i]);
        var decoded := FromByteRecord(row, p);
        if decoded.Ok? {
          var _ := ProcessRecord(decoded.value);
        }
        assert Snapshot() == Ledger.Ingest(p, before, rows[i]);
        assert rows[i..][1..] == rows[i + 1..];
        i := i + 1;
      }
    }
  }

  /** A deposit for a known client raises its total and is logged. */
  method TestDeposit() returns (r: Outcome<DbError>, total: real, logged: real)
    ensures r == Pass && total == 20.0 && logged == 10.0
  {
    var engine := new Engine.Mock();
    r := engine.ProcessRecord(Record(Deposit, 1, 3, 10.0));
    total := engine.clients[1].total;
    logged := engine.transactions[3].amount;
  }

  /** A withdrawal within the available funds lowers the total. */
  method TestWithdrawal() returns (r: Outcome<DbError>, total: real)
    ensures r == Pass && total == 7.0
  {
    var engine := new Engine.Mock();
    r := engine.ProcessRecord(Record(Withdrawal, 1, 3, 3.0));
    total := engine.clients[1].total;
  }

  /** A dispute holds the deposit's amount and flags its entry. */
  method TestDispute() returns (r1: Outcome<DbError>, r2: Outcome<DbError>, cas: Account, disputed: bool)
    ensures r1 == Pass && r2 == Pass
    ensures cas.total == 13.0 && cas.available == 10.0 && cas.held == 3.0
    ensures disputed
  {
    var engine := new Engine.Mock();
    r1 := engine.ProcessRecord(Record(Deposit, 1, 3, 3.0));
    r2 := engine.ProcessRecord(Record(Dispute, 1, 3, 0.0));
    cas := engine.clients[1];
    disputed := engine.transactions[3].IsInDispute();
  }

  /** A resolve releases what the dispute held and clears the flag. */
  method TestResolve() returns (rs: seq<Outcome<DbError>>, cas: Account, disputed: bool)
    ensures rs == [Pass, Pass, Pass]
    ensures cas.held == 0.0 && cas.available == 13.0 && cas.total == 13.0
    ensures !disputed
  {
    var engine := new Engine.Mock();
    var r1 := engine.ProcessRecord(Record(Deposit, 1, 3, 3.0));
    var r2 := engine.ProcessRecord(Record(Dispute, 1, 3, 0.0));
    var r3 := engine.ProcessRecord(Record(Resolve, 1, 3, 0.0));
    rs := [r1, r2, r3];
    cas := engine.clients[1];
    disputed := engine.transactions[3].IsInDispute();
  }

  /** A chargeback removes what the dispute held and locks the account;
      the entry stays flagged. */
  method TestChargeback() returns (rs: seq<Outcome<DbError>>, cas: Account, disputed: bool)
    ensures rs == [Pass, Pass, Pass]
    ensures cas.locked && cas.held == 0.0 && cas.available == 10.0 && cas.total == 10.0
    ensures disputed
  {
    var engine := new Engine.Mock();
    var r1 := engine.ProcessRecord(Record(Deposit, 1, 3, 3.0));
    var r2 := engine.ProcessRecord(Record(Dispute, 1, 3, 0.0));
    var r3 := engine.ProcessRecord(Record(Chargeback, 1, 3, 0.0));
    rs := [r1, r2, r3];
    cas := engine.clients[1];
    disputed := engine.transactions[3].IsInDispute();
  }
}
