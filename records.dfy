/** Decoding one CSV row into a `Record`: trim every field, parse the four
    columns, and accept the row only when all four parse and the amount is
    not negative. The standard-library number parsers are parameters. */
module Records {
  import opened Base
  import opened Kinds

  /** One decoded input line. */
  datatype Record = Record(kind: TransactionKind, client: u16, tx: u32, amount: real)
  {
    /** The only validity rule: the amount is not negative. */
    predicate IsValid()
    {
      amount >= 0.0
    }
  }

  /** Why a row was not turned into a record. */
  datatype RecordError = Parse | Invalid

  /** What the standard `f32` parser can produce: a finite number (held
      exactly), an infinity (for spellings too large for `f32`), or NaN. */
  datatype F32 = Finite(value: real) | Infinity | NegInfinity | NaN
  {
    /** `x >= 0.0` on an `f32`: false for NaN and for negative numbers. */
    predicate IsNonNegative()
    {
      || (Finite? && value >= 0.0)
      || Infinity?
    }
  }

  /** The standard-library `FromStr` parsers for the three numeric column
      types, each returning `None` when the text does not parse. They are not
      part of this model, so a decoder is given them. */
  datatype Parsers = Parsers(
    u16: Bytes -> Option<u16>,
    u32: Bytes -> Option<u32>,
    f32: Bytes -> Option<F32>)

  /** The amount parser: text that does not parse counts as 0.0, and only the
      two infinities are refused. */
  function ParseF32(p: Parsers, x: Bytes): (r: Option<F32>)
    ensures r.None? <==> p.f32(x) == Some(Infinity) || p.f32(x) == Some(NegInfinity)
    ensures p.f32(x).None? ==> r == Some(Finite(0.0))
    ensures r.Some? && p.f32(x).Some? ==> r == p.f32(x)
  {
    var v := match p.f32(x) case Some(v) => v case None => Finite(0.0);
    if v == NegInfinity then None
    else if v == Infinity then None
    else Some(v)
  }

  /** The decision made on the four already-trimmed fields of a row. */
  function Decode(p: Parsers, fields: seq<Bytes>): (r: Result<Record, RecordError>)
    requires |fields| >= 4
    ensures r == Err(Parse) <==>
              || TransactionKind.New(fields[0]).None?
              || p.u16(fields[1]).None?
              || p.u32(fields[2]).None?
              || ParseF32(p, fields[3]).None?
    ensures r.Ok? ==>
              && r.value.IsValid()
              && TransactionKind.New(fields[0]) == Some(r.value.kind)
              && p.u16(fields[1]) == Some(r.value.client)
              && p.u32(fields[2]) == Some(r.value.tx)
              && ParseF32(p, fields[3]) == Some(Finite(r.value.amount))
    ensures r == Err(Invalid) <==>
              && TransactionKind.New(fields[0]).Some?
              && p.u16(fields[1]).Some?
              && p.u32(fields[2]).Some?
              && ParseF32(p, fields[3]).Some?
              && !ParseF32(p, fields[3]).value.IsNonNegative()
  {
    match (TransactionKind.New(fields[0]), p.u16(fields[1]), p.u32(fields[2]), ParseF32(p, fields[3]))
    case (Some(kind), Some(client), Some(tx), Some(amount)) =>
      (match amount
       case Finite(v) =>
         var record := Record(kind, client, tx, v);
         if record.IsValid() then Ok(record) else Err(Invalid)
       // NaN >= 0.0 is false, so a NaN amount fails the validity check.
       case _ => Err(Invalid))
    case _ => Err(Parse)
  }

  /** ASCII whitespace as Rust defines it: space, tab, line feed, form feed
      and carriage return. */
  predicate IsWhitespace(b: bv8)
  {
    b == 0x20 || b == 0x09 || b == 0x0A || b == 0x0C || b == 0x0D
  }

  /** Drops leading whitespace. */
  function TrimStart(s: Bytes): (r: Bytes)
    ensures |r| <= |s|
    ensures r == [] || !IsWhitespace(r[0])
  {
    if |s| > 0 && IsWhitespace(s[0]) then TrimStart(s[1..]) else s
  }

  /** Drops trailing whitespace. */
  function TrimEnd(s: Bytes): (r: Bytes)
    ensures |r| <= |s|
    ensures r == [] || !IsWhitespace(r[|r| - 1])
    ensures r == [] || r[0] == s[0]
  {
    if |s| > 0 && IsWhitespace(s[|s| - 1]) then TrimEnd(s[..|s| - 1]) else s
  }

  /** What `TrimStart` drops is a prefix made of whitespace only. */
  lemma {:induction false} TrimStartIsSuffix(s: Bytes)
    ensures s[|s| - |TrimStart(s)|..] == TrimStart(s)
    ensures forall i :: 0 <= i < |s| - |TrimStart(s)| ==> IsWhitespace(s[i])
  {
    if |s| > 0 && IsWhitespace(s[0]) {
      TrimStartIsSuffix(s[1..]);
      assert s[|s| - |TrimStart(s)|..] == s[1..][|s[1..]| - |TrimStart(s[1..])|..];
      forall i | 0 <= i < |s| - |TrimStart(s)|
        ensures IsWhitespace(s[i])
      {
        if i > 0 {
          assert s[i] == s[1..][i - 1];
        }
      }
    }
  }

  /** What `TrimEnd` drops is a suffix made of whitespace only. */
  lemma {:induction false} TrimEndIsPrefix(s: Bytes)
    ensures s[..|TrimEnd(s)|] == TrimEnd(s)
    ensures forall i :: |TrimEnd(s)| <= i < |s| ==> IsWhitespace(s[i])
  {
    if |s| > 0 && IsWhitespace(s[|s| - 1]) {
      var s' := s[..|s| - 1];
      TrimEndIsPrefix(s');
      assert s[..|TrimEnd(s)|] == s'[..|TrimEnd(s')|];
      forall i | |TrimEnd(s)| <= i < |s|
        ensures IsWhitespace(s[i])
      {
        if i < |s| - 1 {
          assert s[i] == s'[i];
        }
      }
    }
  }

  /** A field with leading and trailing whitespace removed. */
  function TrimField(s: Bytes): (r: Bytes)
    ensures IsTrimmed(r)
    ensures |r| <= |s|
  {
    TrimEnd(TrimStart(s))
  }

  /** The trimmed field is the slice of the field that starts after its
      leading whitespace; only whitespace comes before and after it. */
  lemma TrimFieldIsInnerSlice(s: Bytes)
    ensures var i := |s| - |TrimStart(s)|;
      && i + |TrimField(s)| <= |s| && TrimField(s) == s[i..i + |TrimField(s)|]
      && (forall k :: 0 <= k < i ==> IsWhitespace(s[k]))
      && (forall k :: i + |TrimField(s)| <= k < |s| ==> IsWhitespace(s[k]))
  {
    var t := TrimStart(s);
    var i := |s| - |t|;
    TrimStartIsSuffix(s);
    TrimEndIsPrefix(t);
    var r := TrimEnd(t);
    assert r == s[i..i + |r|];
    forall k | i + |r| <= k < |s|
      ensures IsWhitespace(s[k])
    {
      assert s[k] == t[k - i];
    }
  }

  /** A field that neither starts nor ends with whitespace. */
  predicate IsTrimmed(s: Bytes)
  {
    s == [] || (!IsWhitespace(s[0]) && !IsWhitespace(s[|s| - 1]))
  }

  /** A field that is already trimmed is left as it is. */
  lemma TrimFieldKeepsTrimmed(s: Bytes)
    requires IsTrimmed(s)
    ensures TrimField(s) == s
  {
  }

  /** Trimming twice is trimming once. */
  lemma TrimFieldIdempotent(s: Bytes)
    ensures TrimField(TrimField(s)) == TrimField(s)
  {
    TrimFieldKeepsTrimmed(TrimField(s));
  }

  /** Every field of a row, trimmed. */
  function TrimAll(fields: seq<Bytes>): (r: seq<Bytes>)
    ensures |r| == |fields|
    ensures forall i :: 0 <= i < |fields| ==> r[i] == TrimField(fields[i])
  {
    seq(|fields|, i requires 0 <= i < |fields| => TrimField(fields[i]))
  }

  /** The row buffer the CSV reader fills, which the decoder trims in place. */
  class ByteRecord {
    var fields: seq<Bytes>

    constructor (fields: seq<Bytes>)
      ensures this.fields == fields
    {
      this.fields := fields;
    }

    method Trim()
      modifies this
      ensures fields == TrimAll(old(fields))
    {
      fields := TrimAll(fields);
    }
  }

  /** Trims the row in place, then decodes it. Indexing a row with fewer than
      four fields panics in the source, so a caller must supply four. */
  method FromByteRecord(row: ByteRecord, p: Parsers) returns (r: Result<Record, RecordError>)
    requires |row.fields| >= 4
    modifies row
    ensures row.fields == TrimAll(old(row.fields))
    ensures r == Decode(p, row.fields)
  {
    row.Trim();
    r := Decode(p, row.fields);
  }

  /** A row whose kind, client and transaction parse but whose amount does
      not is accepted with amount 0.0: the amount parser defaults. */
  lemma UnparsableAmountIsZero(p: Parsers, fields: seq<Bytes>)
    requires |fields| >= 4
    requires TransactionKind.New(fields[0]).Some? && p.u16(fields[1]).Some? && p.u32(fields[2]).Some?
    requires p.f32(fields[3]).None?
    ensures Decode(p, fields)
      == Ok(Record(TransactionKind.New(fields[0]).value, p.u16(fields[1]).value, p.u32(fields[2]).value, 0.0))
  {
  }

  // Byte strings used by the unit tests below.
  const FOUR_SPACES: Bytes := [0x20, 0x20, 0x20, 0x20]  // "    "
  const TWO_SPACES: Bytes := [0x20, 0x20]  // "  "
  const ONE: Bytes := [0x31]  // "1"
  const THREE: Bytes := [0x33]  // "3"
  const TWO_POINT_ZERO: Bytes := [0x32, 0x2e, 0x30]  // "2.0"
  const XXX: Bytes := [0x78, 0x78, 0x78]  // "xxx"
  const SEVEN: Bytes := [0x37]  // "7"
  const MINUS_TEN: Bytes := [0x2d, 0x31, 0x30, 0x2e, 0x30]  // "-10.0"
  const MINUS_HUGE: Bytes := [0x2d, 0x33, 0x2e, 0x35, 0x65, 0x33, 0x38]  // "-3.5e38"
  const HUGE: Bytes := [0x33, 0x2e, 0x35, 0x65, 0x33, 0x38]  // "3.5e38"
  const RULE_THE_WORLD: Bytes :=  // "rule the world"
    [0x72, 0x75, 0x6c, 0x65, 0x20, 0x74, 0x68, 0x65, 0x20, 0x77, 0x6f, 0x72, 0x6c, 0x64]

  /** Whitespace in front of a trimmed field is all that trimming removes. */
  lemma {:induction false} TrimLeadingWhitespace(pad: Bytes, s: Bytes)
    requires forall i :: 0 <= i < |pad| ==> IsWhitespace(pad[i])
    requires IsTrimmed(s)
    ensures TrimField(pad + s) == s
  {
    if pad == [] {
      assert pad + s == s;
      TrimFieldKeepsTrimmed(s);
    } else {
      assert (pad + s)[1..] == pad[1..] + s;
      TrimLeadingWhitespace(pad[1..], s);
    }
  }

  /** Padding in front of the client column does not change how a row with
      otherwise trimmed fields decodes. */
  lemma DecodePaddedRow(p: Parsers, kind: Bytes, pad: Bytes, client: Bytes, tx: Bytes, amount: Bytes)
    requires forall i :: 0 <= i < |pad| ==> IsWhitespace(pad[i])
    requires IsTrimmed(kind) && IsTrimmed(client) && IsTrimmed(tx) && IsTrimmed(amount)
    ensures Decode(p, TrimAll([kind, pad + client, tx, amount])) == Decode(p, [kind, client, tx, amount])
  {
    TrimFieldKeepsTrimmed(kind);
    TrimLeadingWhitespace(pad, client);
    TrimFieldKeepsTrimmed(tx);
    TrimFieldKeepsTrimmed(amount);
    assert TrimAll([kind, pad + client, tx, amount]) == [kind, client, tx, amount];
  }

  /** A padded row is trimmed before its numbers are parsed. */
  method TestRecordParsing(p: Parsers) returns (r: Result<Record, RecordError>)
    requires p.u16(ONE) == Some(1) && p.u32(THREE) == Some(3)
    requires p.f32(TWO_POINT_ZERO) == Some(Finite(2.0))
    ensures r == Ok(Record(Deposit, 1, 3, 2.0))
  {
    DecodePaddedRow(p, DEPOSIT, FOUR_SPACES, ONE, THREE, TWO_POINT_ZERO);
    var row := new ByteRecord([DEPOSIT, FOUR_SPACES + ONE, THREE, TWO_POINT_ZERO]);
    r := FromByteRecord(row, p);
  }

  /** An unknown kind fails the whole row, whatever the other fields hold. */
  method TestParsingBadRecordTransaction(p: Parsers) returns (r: Result<Record, RecordError>)
    ensures r == Err(Parse)
  {
    DecodePaddedRow(p, RULE_THE_WORLD, TWO_SPACES, XXX, THREE, TWO_POINT_ZERO);
    var row := new ByteRecord([RULE_THE_WORLD, TWO_SPACES + XXX, THREE, TWO_POINT_ZERO]);
    r := FromByteRecord(row, p);
  }

  /** A client field that is not a number fails the whole row. */
  method TestParsingNumericalBadRecord(p: Parsers) returns (r: Result<Record, RecordError>)
    requires p.u16(XXX) == None
    ensures r == Err(Parse)
  {
    DecodePaddedRow(p, RESOLVE, TWO_SPACES, XXX, THREE, TWO_POINT_ZERO);
    var row := new ByteRecord([RESOLVE, TWO_SPACES + XXX, THREE, TWO_POINT_ZERO]);
    r := FromByteRecord(row, p);
  }

  /** A negative amount parses but is invalid. */
  method TestRecordIsValid(p: Parsers) returns (r: Result<Record, RecordError>)
    requires p.u16(SEVEN) == Some(7) && p.u32(THREE) == Some(3)
    requires p.f32(MINUS_TEN) == Some(Finite(-10.0))
    ensures r == Err(Invalid)
  {
    DecodePaddedRow(p, DEPOSIT, TWO_SPACES, SEVEN, THREE, MINUS_TEN);
    var row := new ByteRecord([DEPOSIT, TWO_SPACES + SEVEN, THREE, MINUS_TEN]);
    r := FromByteRecord(row, p);
  }

  /** An amount that overflows to negative infinity fails to parse. */
  method TestRecordDisallowNegInfinity(p: Parsers) returns (r: Result<Record, RecordError>)
    requires p.u16(SEVEN) == Some(7) && p.u32(THREE) == Some(3)
    requires p.f32(MINUS_HUGE) == Some(NegInfinity)
    ensures r == Err(Parse)
  {
    DecodePaddedRow(p, WITHDRAWAL, TWO_SPACES, SEVEN, THREE, MINUS_HUGE);
    var row := new ByteRecord([WITHDRAWAL, TWO_SPACES + SEVEN, THREE, MINUS_HUGE]);
    r := FromByteRecord(row, p);
  }

  /** An amount that overflows to infinity fails to parse. */
  method TestRecordDisallowInfinity(p: Parsers) returns (r: Result<Record, RecordError>)
    requires p.u16(SEVEN) == Some(7) && p.u32(THREE) == Some(3)
    requires p.f32(HUGE) == Some(Infinity)
    ensures r == Err(Parse)
  {
    DecodePaddedRow(p, DEPOSIT, TWO_SPACES, SEVEN, THREE, HUGE);
    var row := new ByteRecord([DEPOSIT, TWO_SPACES + SEVEN, THREE, HUGE]);
    r := FromByteRecord(row, p);
  }
}
