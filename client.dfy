/** One client's account: its balances, the primitives that change them,
    and the in-place object the source mutates through `&mut self`. */
module Client {
  import opened Base
  import opened Errors

  /** The state of one client's account. Every primitive below keeps
      `total == available + held` when it held before. */
  datatype Account = Account(available: real, held: real, total: real, locked: bool)
  {
    /** The conservation law of an account. */
    predicate Balanced()
    {
      total == available + held
    }

    /** A fresh account: nothing deposited, not locked. */
    static function New(): (a: Account)
      ensures !a.locked
      ensures a.available == 0.0 && a.held == 0.0 && a.total == 0.0
    {
      Account(0.0, 0.0, 0.0, false)
    }

    /** Credits `x`; refuses a negative amount and then changes nothing. */
    function Add(x: real): (r: Result<Account, DbError>)
      ensures r.Ok? <==> x >= 0.0
      ensures r.Err? ==> r.error == NegativeAmountEncountered
      ensures r.Ok? ==> r.value.available - available == x && r.value.total - total == x
      ensures r.Ok? ==> r.value.held == held && r.value.locked == locked
    {
      if x >= 0.0 then Ok(this.(available := available + x, total := total + x))
      else Err(NegativeAmountEncountered)
    }

    /** Debits `x`; refuses only a negative amount. It does not check that
        `x` is available: that is the caller's business. */
    function Sub(x: real): (r: Result<Account, DbError>)
      ensures r.Ok? <==> x >= 0.0
      ensures r.Err? ==> r.error == NegativeAmountEncountered
      ensures r.Ok? ==> available - r.value.available == x && total - r.value.total == x
      ensures r.Ok? ==> r.value.held == held && r.value.locked == locked
    {
      if x >= 0.0 then Ok(this.(available := available - x, total := total - x))
      else Err(NegativeAmountEncountered)
    }

    /** Moves `x` from available to held; never fails and checks nothing. */
    function Hold(x: real): (a: Account)
      ensures available - a.available == x && a.held - held == x
      ensures a.total == total && a.locked == locked
    {
      this.(available := available - x, held := held + x)
    }

    /** Moves `x` from held back to available when at least `x` is held;
        otherwise reports `NotEnoughHeldValue` and changes nothing. */
    function Unhold(x: real): (r: Result<Account, DbError>)
      ensures r.Ok? <==> held >= x
      ensures r.Err? ==> r.error == NotEnoughHeldValue
      ensures r.Ok? ==> held - r.value.held == x && r.value.available - available == x
      ensures r.Ok? ==> r.value.total == total && r.value.locked == locked
    {
      if held >= x then Ok(this.(held := held - x, available := available + x))
      else Err(NotEnoughHeldValue)
    }

    /** Sets the lock; balances are untouched. */
    function Lock(): (a: Account)
      ensures a.locked
      ensures a.(locked := locked) == this
    {
      this.(locked := true)
    }

    /** Clears the lock; balances are untouched. */
    function Unlock(): (a: Account)
      ensures !a.locked
      ensures a.(locked := locked) == this
    {
      this.(locked := false)
    }
  }

  /** Conservation: a fresh account balances, and every primitive that
      succeeds on a balanced account leaves it balanced. */
  lemma PrimitivesKeepBalance(a: Account, x: real)
    ensures Account.New().Balanced()
    ensures a.Balanced() ==>
      && (a.Add(x).Ok? ==> a.Add(x).value.Balanced())
      && (a.Sub(x).Ok? ==> a.Sub(x).value.Balanced())
      && a.Hold(x).Balanced()
      && (a.Unhold(x).Ok? ==> a.Unhold(x).value.Balanced())
      && a.Lock().Balanced() && a.Unlock().Balanced()
  {
  }

  /** Releasing what was just held gives back the original account, as long
      as the held balance was not already negative. */
  lemma HoldUnholdRoundTrip(a: Account, x: real)
    requires a.held >= 0.0
    ensures a.Hold(x).Unhold(x) == Ok(a)
  {
  }

  /** Debiting what was just credited gives back the original account. */
  lemma AddSubRoundTrip(a: Account, x: real)
    requires x >= 0.0
    ensures a.Add(x).Ok? && a.Add(x).value.Sub(x) == Ok(a)
  {
  }

  /** Locking twice is locking once, and unlocking undoes locking on an
      account that was unlocked. */
  lemma LockIdempotent(a: Account)
    ensures a.Lock().Lock() == a.Lock()
    ensures !a.locked ==> a.Lock().Unlock() == a
  {
  }

  /** What a fallible primitive leaves behind: on success the new account,
      on failure the error and the account as it was. */
  function Settle(before: Account, r: Result<Account, DbError>): (Outcome<DbError>, Account)
  {
    match r
    case Ok(after) => (Pass, after)
    case Err(e) => (Fail(e), before)
  }

  /** The account object the source keeps in its client table and updates
      in place. Its state is an `Account` value; each method is proved to
      do exactly what the primitive of the same name does to that value. */
  class ClientAccountState {
    var available: real
    var held: real
    var total: real
    var locked: bool

    function State(): Account
      reads this
    {
      Account(available, held, total, locked)
    }

    constructor ()
      ensures State() == Account(0.0, 0.0, 0.0, false)
    {
      available := 0.0;
      held := 0.0;
      total := 0.0;
      locked := false;
    }

    method Add(x: real) returns (r: Outcome<DbError>)
      modifies this
      ensures (r, State()) == Settle(old(State()), old(State()).Add(x))
    {
      if x >= 0.0 {
        available := available + x;
        total := total + x;
        r := Pass;
      } else {
        r := Fail(NegativeAmountEncountered);
      }
    }

    method Sub(x: real) returns (r: Outcome<DbError>)
      modifies this
      ensures (r, State()) == Settle(old(State()), old(State()).Sub(x))
    {
      if x >= 0.0 {
        available := available - x;
        total := total - x;
        r := Pass;
      } else {
        r := Fail(NegativeAmountEncountered);
      }
    }

    method Lock() returns (r: Outcome<DbError>)
      modifies this
      ensures r == Pass && State() == old(State()).Lock()
    {
      locked := true;
      r := Pass;
    }

    method Unlock() returns (r: Outcome<DbError>)
      modifies this
      ensures r == Pass && State() == old(State()).Unlock()
    {
      locked := false;
      r := Pass;
    }

    method Hold(x: real) returns (r: Outcome<DbError>)
      modifies this
      ensures r == Pass && State() == old(State()).Hold(x)
    {
      available := available - x;
      held := held + x;
      r := Pass;
    }

    method Unhold(x: real) returns (r: Outcome<DbError>)
      modifies this
      ensures (r, State()) == Settle(old(State()), old(State()).Unhold(x))
    {
      if held >= x {
        held := held - x;
        available := available + x;
        r := Pass;
      } else {
        r := Fail(NotEnoughHeldValue);
      }
    }
  }

  /** The unit test of `sub`: credit 3, debit 1. */
  method TestSub() returns (available: real, total: real)
    ensures available == 2.0 && total == 2.0
  {
    var cas := new ClientAccountState();
    var r := cas.Add(3.0);
    assert r == Pass;
    r := cas.Sub(1.0);
    assert r == Pass;
    available, total := cas.available, cas.total;
  }

  /** The unit test of `add`: credit 10, then a negative credit is refused. */
  method TestAdd() returns (available: real, total: real, negative: Outcome<DbError>)
    ensures available == 10.0 && total == 10.0
    ensures negative == Fail(NegativeAmountEncountered)
  {
    var cas := new ClientAccountState();
    var r := cas.Add(10.0);
    assert r == Pass;
    available, total := cas.available, cas.total;
    negative := cas.Add(-1.0);
  }

  /** The unit test of `hold`: credit 3, hold 1. */
  method TestHold() returns (total: real, held: real)
    ensures total == 3.0 && held == 1.0
  {
    var cas := new ClientAccountState();
    var r := cas.Add(3.0);
    assert r == Pass;
    r := cas.Hold(1.0);
    assert r == Pass;
    total, held := cas.total, cas.held;
  }
}
