/** The five transaction kinds and the exact-match decoder from the bytes
    of the CSV `type` column. */
module Kinds {
  import opened Base

  /** The accepted spellings, as byte-string literals. */
  const DEPOSIT: Bytes := [0x64, 0x65, 0x70, 0x6f, 0x73, 0x69, 0x74]  // "deposit"
  const WITHDRAWAL: Bytes := [0x77, 0x69, 0x74, 0x68, 0x64, 0x72, 0x61, 0x77, 0x61, 0x6c]  // "withdrawal"
  const DISPUTE: Bytes := [0x64, 0x69, 0x73, 0x70, 0x75, 0x74, 0x65]  // "dispute"
  const RESOLVE: Bytes := [0x72, 0x65, 0x73, 0x6f, 0x6c, 0x76, 0x65]  // "resolve"
  const CHARGEBACK: Bytes := [0x63, 0x68, 0x61, 0x72, 0x67, 0x65, 0x62, 0x61, 0x63, 0x6b]  // "chargeback"

  datatype TransactionKind = Deposit | Withdrawal | Dispute | Resolve | Chargeback
  {
    /** The one spelling the decoder accepts for this kind. */
    function Name(): Bytes
    {
      match this
      case Deposit => DEPOSIT
      case Withdrawal => WITHDRAWAL
      case Dispute => DISPUTE
      case Resolve => RESOLVE
      case Chargeback => CHARGEBACK
    }

    /** Decodes a kind from its exact lower-case spelling; anything else,
        including the empty string, is `None`. */
    static function New(trans: Bytes): (r: Option<TransactionKind>)
      ensures r.Some? ==> trans == r.value.Name()
    {
      if trans == DEPOSIT then Some(Deposit)
      else if trans == WITHDRAWAL then Some(Withdrawal)
      else if trans == DISPUTE then Some(Dispute)
      else if trans == RESOLVE then Some(Resolve)
      else if trans == CHARGEBACK then Some(Chargeback)
      else None
    }
  }

  /** Distinct kinds have distinct spellings. */
  lemma NamesDistinct(j: TransactionKind, k: TransactionKind)
    requires j != k
    ensures j.Name() != k.Name()
  {
  }

  /** Round trip: every kind decodes from its own spelling. */
  lemma {:induction false} NameRoundTrip(k: TransactionKind)
    ensures TransactionKind.New(k.Name()) == Some(k)
  {
    match k
    case Deposit =>
    case Withdrawal =>
      NamesDistinct(Deposit, Withdrawal);
    case Dispute =>
      NamesDistinct(Deposit, Dispute);
      NamesDistinct(Withdrawal, Dispute);
    case Resolve =>
      NamesDistinct(Deposit, Resolve);
      NamesDistinct(Withdrawal, Resolve);
      NamesDistinct(Dispute, Resolve);
    case Chargeback =>
      NamesDistinct(Deposit, Chargeback);
      NamesDistinct(Withdrawal, Chargeback);
      NamesDistinct(Dispute, Chargeback);
      NamesDistinct(Resolve, Chargeback);
  }

  /** The decoder accepts exactly the five spellings, one per kind; so it is
      injective on the inputs it accepts. */
  lemma NewExactlyNames(trans: Bytes, k: TransactionKind)
    ensures TransactionKind.New(trans) == Some(k) <==> trans == k.Name()
  {
    NameRoundTrip(k);
  }

  /** The empty field, and any field whose first byte is an upper-case ASCII
      letter, is not a kind: matching is exact and case-sensitive. */
  lemma NewRejectsEmptyAndCapitalised(trans: Bytes)
    requires |trans| == 0 || 0x41 <= trans[0] <= 0x5A
    ensures TransactionKind.New(trans) == None
  {

  }

  /** The bytes of "Unknown_transaction_type". */
  const UNKNOWN_KIND: Bytes := [0x55, 0x6e, 0x6b, 0x6e, 0x6f, 0x77, 0x6e, 0x5f, 0x74, 0x72, 0x61, 0x6e, 0x73, 0x61, 0x63, 0x74, 0x69, 0x6f, 0x6e, 0x5f, 0x74, 0x79, 0x70, 0x65]

  /** The unit tests of the decoder. */
  lemma DecoderExamples()
    ensures TransactionKind.New(WITHDRAWAL) == Some(Withdrawal)
    ensures TransactionKind.New(UNKNOWN_KIND) == None
    ensures TransactionKind.New([]) == None
  {
    NameRoundTrip(Withdrawal);
    NewRejectsEmptyAndCapitalised(UNKNOWN_KIND);
    NewRejectsEmptyAndCapitalised([]);
  }
}
