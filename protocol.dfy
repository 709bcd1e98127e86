/** The logged form of a deposit, kept so that later records can dispute,
    resolve or charge it back. */
module Protocol {
  import opened Base
  import opened Kinds
  import opened Records

  /** A logged transaction: its kind, the client it belongs to, its amount,
      and whether it is currently under dispute. */
  datatype Transaction = Transaction(kind: TransactionKind, clientId: u16, amount: real, disputed: bool)
  {
    /** A new log entry, not under dispute. */
    static function New(kind: TransactionKind, clientId: u16, amount: real): (t: Transaction)
      ensures t.kind == kind && t.clientId == clientId && t.amount == amount
      ensures !t.IsInDispute()
    {
      Transaction(kind, clientId, amount, false)
    }

    /** The log entry for a record: kind, client and amount are copied
        unchanged, and the entry starts outside any dispute. */
    static function FromRecord(r: Record): (t: Transaction)
      ensures t.kind == r.kind && t.clientId == r.client && t.amount == r.amount
      ensures !t.IsInDispute()
      ensures r.IsValid() ==> t.amount >= 0.0
    {
      New(r.kind, r.client, r.amount)
    }

    predicate IsInDispute()
    {
      disputed
    }

    /** Marks or clears the dispute; nothing else about the entry changes. */
    function SetDispute(d: bool): (t: Transaction)
      ensures t.IsInDispute() == d
      ensures t.kind == kind && t.clientId == clientId && t.amount == amount
    {
      this.(disputed := d)
    }
  }

  /** Setting the flag twice keeps only the second value, and clearing a flag
      that was just set gives back an entry that was not in dispute. */
  lemma SetDisputeOverwrites(t: Transaction, d: bool, e: bool)
    ensures t.SetDispute(d).SetDispute(e) == t.SetDispute(e)
    ensures !t.IsInDispute() ==> t.SetDispute(true).SetDispute(false) == t
  {
  }
}
