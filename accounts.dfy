/** The bank account: the class-wide state every account shares (the
    transaction counter and the interest rate), the per-account state (number,
    names, balance, time zone), the argument checks, and the operations that
    draw a confirmation code and update the balance. */
module Accounts {
  import opened Wrappers
  import opened Errors
  import opened Text
  import opened Clock
  import opened TimeZones
  import opened Codes

  /** The first value `itertools.count(100)` hands out. */
  const FirstTransactionId := 100
  /** The class attribute `_interest_rate`, in percent. */
  const DefaultInterestRate: real := 5.0
  /** The smallest amount accepted as an opening balance, deposit or withdrawal. */
  const MinimumAmount: real := 0.01

  // ---------------------------------------------------------------------
  // Argument checks

  /** `validate_and_set_name`'s check: `len(str(value).strip()) == 0` is
      refused, which happens exactly for a name made of white space only. */
  function ValidateName(value: string, field: string): (r: Outcome<Error>)
    ensures r.Fail? <==> IsBlank(value)
    ensures r.Fail? ==> r.error == EmptyName(field)
  {
    if Strip(value) == [] then Fail(EmptyName(field)) else Pass
  }

  /** `validate_real_number(value, field, min_value)`: the value itself, or
      an error when it lies below a given minimum. */
  function ValidateRealNumber(value: real, field: string, minValue: Option<real>): (r: Result<real, Error>)
    ensures r.Ok? <==> (minValue.None? || value >= minValue.value)
    ensures r.Ok? ==> r.value == value
    ensures r.Err? ==> r.error == BelowMinimum(field, minValue.value)
  {
    if minValue.Some? && value < minValue.value then Err(BelowMinimum(field, minValue.value))
    else Ok(value)
  }

  /** The error `Account(...)` raises, in the order the constructor checks:
      the account number, the first name, the last name, the opening
      balance; `None` when it succeeds. */
  function OpeningError(accountNumber: int, firstName: string, lastName: string, initialBalance: real): (r: Option<Error>)
    ensures r.None? <==>
      accountNumber >= 0 && !IsBlank(firstName) && !IsBlank(lastName) && initialBalance >= MinimumAmount
    ensures accountNumber < 0 ==> r == Some(NegativeAccountNumber)
    ensures accountNumber >= 0 && IsBlank(firstName) ==> r == Some(EmptyName("first_name"))
    ensures accountNumber >= 0 && !IsBlank(firstName) && IsBlank(lastName) ==> r == Some(EmptyName("last_name"))
    ensures accountNumber >= 0 && !IsBlank(firstName) && !IsBlank(lastName) && initialBalance < MinimumAmount
            ==> r == Some(BelowMinimum("balance", MinimumAmount))
  {
    if accountNumber < 0 then Some(NegativeAccountNumber)
    else if ValidateName(firstName, "first_name").Fail? then Some(ValidateName(firstName, "first_name").error)
    else if ValidateName(lastName, "last_name").Fail? then Some(ValidateName(lastName, "last_name").error)
    else if ValidateRealNumber(initialBalance, "balance", Some(MinimumAmount)).Err? then
      Some(ValidateRealNumber(initialBalance, "balance", Some(MinimumAmount)).error)
    else None
  }

  /** The default `initial_balance=0` is below the minimum, so an account
      opened without an explicit balance is always refused. */
  lemma DefaultBalanceRejected(accountNumber: int, firstName: string, lastName: string)
    ensures OpeningError(accountNumber, firstName, lastName, 0.0).Some?
  {
  }

  /** The interest `pay_interest` adds: `balance * rate / 100`. At a
      non-negative rate it is never negative, and a zero balance earns none. */
  function InterestOn(balance: real, rate: real): (r: real)
    requires balance >= 0.0 && rate >= 0.0
    ensures r >= 0.0
    ensures balance == 0.0 ==> r == 0.0
    ensures rate == 0.0 ==> r == 0.0
  {
    assert balance * rate >= 0.0;
    balance * rate / 100.0
  }

  // ---------------------------------------------------------------------
  // The class-wide state

  /** What the class `Account` holds for all its instances: the shared
      `transaction_counter` and `_interest_rate`. `issued` records every
      transaction id handed out so far. */
  class Ledger {
    var nextId: int
    var interestRate: real
    ghost var issued: seq<int>

    /** The counter has handed out 100, 101, ... in order, and the rate was
        only ever set through the guarded setter. */
    ghost predicate Valid()
      reads this
    {
      && nextId == FirstTransactionId + |issued|
      && (forall i :: 0 <= i < |issued| ==> issued[i] == FirstTransactionId + i)
      && interestRate >= 0.0
    }

    /** The class as first loaded: a fresh counter at 100 and a 5% rate. */
    constructor ()
      ensures Valid()
      ensures nextId == FirstTransactionId && issued == []
      ensures interestRate == DefaultInterestRate
    {
      nextId := FirstTransactionId;
      interestRate := DefaultInterestRate;
      issued := [];
    }

    /** `next(Account.transaction_counter)`: hands out the current value and
        advances by exactly one. The value was never handed out before. */
    method NextTransactionId() returns (id: int)
      requires Valid()
      modifies this`nextId, this`issued
      ensures Valid()
      ensures id == old(nextId) && nextId == old(nextId) + 1
      ensures issued == old(issued) + [id]
      ensures id !in old(issued)
    {
      id := nextId;
      nextId := nextId + 1;
      issued := issued + [id];
    }

    /** `set_interest_rate(value)`: a negative rate is refused and changes
        nothing; any other rate replaces the current one. */
    method SetInterestRate(value: real) returns (r: Outcome<Error>)
      requires Valid()
      modifies this`interestRate
      ensures Valid()
      ensures r.Fail? <==> value < 0.0
      ensures r.Fail? ==> r.error == NegativeInterestRate && interestRate == old(interestRate)
      ensures r.Pass? ==> interestRate == value
    {
      if value < 0.0 {
        r := Fail(NegativeInterestRate);
      } else {
        interestRate := value;
        r := Pass;
      }
    }
  }

  /** Transaction ids are handed out in strictly increasing order. */
  lemma IssuedIncreasing(ledger: Ledger, i: int, j: int)
    requires ledger.Valid()
    requires 0 <= i < j < |ledger.issued|
    ensures ledger.issued[i] < ledger.issued[j] < ledger.nextId
  {
  }

  // ---------------------------------------------------------------------
  // The accounts

  /** `TimeZone('UTC', 0, 0)`, the zone an account gets when none is given. */
  method DefaultTimeZone() returns (tz: TimeZone)
    ensures tz.Valid()
    ensures tz.name == "UTC" && tz.offsetHours == 0 && tz.offsetMinutes == 0 && tz.offset == 0
  {
    UtcIsValid();
    tz := Utc;
  }

  class Account {
    const accountNumber: int
    var firstName: string
    var lastName: string
    var balance: real
    var timezone: TimeZone
    /** The class-level state shared with every other account. */
    const ledger: Ledger

    /** What every account satisfies between operations. */
    ghost predicate Valid()
      reads this, ledger
    {
      && accountNumber >= 0
      && !IsBlank(firstName) && !IsBlank(lastName)
      && balance >= 0.0
      && timezone.Valid()
      && ledger.Valid()
    }

    /** The assignments `__init__` makes once its checks have passed. */
    constructor (ledger: Ledger, accountNumber: int, firstName: string, lastName: string,
                 initialBalance: real, timezone: TimeZone)
      requires OpeningError(accountNumber, firstName, lastName, initialBalance).None?
      requires timezone.Valid() && ledger.Valid()
      ensures Valid()
      ensures this.ledger == ledger && this.accountNumber == accountNumber
      ensures this.firstName == firstName && this.lastName == lastName
      ensures this.balance == initialBalance && this.timezone == timezone
    {
      this.ledger := ledger;
      this.accountNumber := accountNumber;
      this.firstName := firstName;
      this.lastName := lastName;
      this.balance := initialBalance;
      this.timezone := timezone;
    }

    /** `Account(account_number, first_name, last_name, initial_balance,
        timezone)`: refuses exactly what `OpeningError` names; otherwise a new
        account holding the given values, in UTC when no zone is given. */
    static method Open(ledger: Ledger, accountNumber: int, firstName: string, lastName: string,
                       initialBalance: real, timezone: Option<TimeZone>) returns (r: Result<Account, Error>)
      requires ledger.Valid()
      requires timezone.Some? ==> timezone.value.Valid()
      ensures r.Err? <==> OpeningError(accountNumber, firstName, lastName, initialBalance).Some?
      ensures r.Err? ==> r.error == OpeningError(accountNumber, firstName, lastName, initialBalance).value
      ensures r.Ok? ==>
        && fresh(r.value) && r.value.Valid()
        && r.value.ledger == ledger && r.value.accountNumber == accountNumber
        && r.value.firstName == firstName && r.value.lastName == lastName
        && r.value.balance == initialBalance
        && (timezone.Some? ==> r.value.timezone == timezone.value)
        && (timezone.None? ==> r.value.timezone.name == "UTC" && r.value.timezone.offset == 0)
    {
      var err := OpeningError(accountNumber, firstName, lastName, initialBalance);
      if err.Some? {
        return Err(err.value);
      }
      var tz;
      if timezone.Some? {
        tz := timezone.value;
      } else {
        tz := DefaultTimeZone();
      }
      var a := new Account(ledger, accountNumber, firstName, lastName, initialBalance, tz);
      r := Ok(a);
    }

    /** The `first_name` setter: a blank name is refused and changes nothing. */
    method SetFirstName(value: string) returns (r: Outcome<Error>)
      requires Valid()
      modifies this`firstName
      ensures Valid()
      ensures r == ValidateName(value, "first_name")
      ensures firstName == if r.Pass? then value else old(firstName)
    {
      r := ValidateName(value, "first_name");
      if r.Pass? {
        firstName := value;
      }
    }

    /** The `last_name` setter: a blank name is refused and changes nothing. */
    method SetLastName(value: string) returns (r: Outcome<Error>)
      requires Valid()
      modifies this`lastName
      ensures Valid()
      ensures r == ValidateName(value, "last_name")
      ensures lastName == if r.Pass? then value else old(lastName)
    {
      r := ValidateName(value, "last_name");
      if r.Pass? {
        lastName := value;
      }
    }

    /** The `timezone` setter: any TimeZone object is accepted. */
    method SetTimeZone(value: TimeZone)
      requires Valid() && value.Valid()
      modifies this`timezone
      ensures Valid()
      ensures timezone == value
    {
      timezone := value;
    }

    /** `generation_confirmation_code(name)` at clock reading `now`: an unknown
        kind name fails before the counter moves; otherwise the code for that
        kind carries the counter's current value, and the counter advances by
        one. */
    method GenerateConfirmationCode(kindName: string, now: DateTime) returns (r: Result<string, Error>)
      requires Valid() && now.Valid()
      modifies ledger`nextId, ledger`issued
      ensures Valid()
      ensures KindFromName(kindName).None? ==>
        && r == Err(UnknownTransactionKind(kindName))
        && ledger.nextId == old(ledger.nextId) && ledger.issued == old(ledger.issued)
      ensures KindFromName(kindName).Some? ==>
        && r == Ok(CodeFor(KindFromName(kindName).value, accountNumber, now, old(ledger.nextId)))
        && ledger.nextId == old(ledger.nextId) + 1
        && ledger.issued == old(ledger.issued) + [old(ledger.nextId)]
    {
      var kind := KindFromName(kindName);
      if kind.None? {
        return Err(UnknownTransactionKind(kindName));
      }
      var id := ledger.NextTransactionId();
      r := Ok(CodeFor(kind.value, accountNumber, now, id));
    }

    /** `deposit(value)`: an amount below 0.01 is refused before a code is
        drawn; otherwise a D code is drawn and the amount is added. */
    method Deposit(value: real, now: DateTime) returns (r: Result<string, Error>)
      requires Valid() && now.Valid()
      modifies this`balance, ledger`nextId, ledger`issued
      ensures Valid()
      ensures r.Err? <==> value < MinimumAmount
      ensures r.Err? ==>
        && r.error == BelowMinimum("deposit", MinimumAmount)
        && balance == old(balance)
        && ledger.nextId == old(ledger.nextId) && ledger.issued == old(ledger.issued)
      ensures r.Ok? ==>
        && r.value == CodeFor(Kind.Deposit, accountNumber, now, old(ledger.nextId))
        && balance == old(balance) + value
        && ledger.nextId == old(ledger.nextId) + 1
        && ledger.issued == old(ledger.issued) + [old(ledger.nextId)]
    {
      var checked := ValidateRealNumber(value, "deposit", Some(MinimumAmount));
      if checked.Err? {
        return Err(checked.error);
      }
      r := GenerateConfirmationCode("DEPOSIT", now);
      balance := balance + checked.value;
    }

    /** `withdraw(value)`: an amount below 0.01 is refused before a code is
        drawn. An amount above the balance draws an X code and leaves the
        balance alone; any other amount, the whole balance included, draws a
        W code and is taken off. */
    method Withdraw(value: real, now: DateTime) returns (r: Result<string, Error>)
      requires Valid() && now.Valid()
      modifies this`balance, ledger`nextId, ledger`issued
      ensures Valid()
      ensures r.Err? <==> value < MinimumAmount
      ensures r.Err? ==>
        && r.error == BelowMinimum("withdraw", MinimumAmount)
        && balance == old(balance)
        && ledger.nextId == old(ledger.nextId) && ledger.issued == old(ledger.issued)
      ensures r.Ok? && value > old(balance) ==>
        && r.value == CodeFor(Rejected, accountNumber, now, old(ledger.nextId))
        && balance == old(balance)
      ensures r.Ok? && value <= old(balance) ==>
        && r.value == CodeFor(Kind.Withdraw, accountNumber, now, old(ledger.nextId))
        && balance == old(balance) - value
      ensures r.Ok? ==>
        && ledger.nextId == old(ledger.nextId) + 1
        && ledger.issued == old(ledger.issued) + [old(ledger.nextId)]
    {
      var checked := ValidateRealNumber(value, "withdraw", Some(MinimumAmount));
      if checked.Err? {
        return Err(checked.error);
      }
      if checked.value > balance {
        r := GenerateConfirmationCode("REJECTED", now);
        return;
      }
      r := GenerateConfirmationCode("WITHDRAW", now);
      balance := balance - checked.value;
    }

    /** `pay_interest()`: draws an I code and adds `balance * rate / 100`. */
    method PayInterest(now: DateTime) returns (code: string)
      requires Valid() && now.Valid()
      modifies this`balance, ledger`nextId, ledger`issued
      ensures Valid()
      ensures code == CodeFor(Interest, accountNumber, now, old(ledger.nextId))
      ensures balance == old(balance) + InterestOn(old(balance), ledger.interestRate)
      ensures balance >= old(balance)
      ensures ledger.nextId == old(ledger.nextId) + 1
      ensures ledger.issued == old(ledger.issued) + [old(ledger.nextId)]
    {
      var interest := InterestOn(balance, ledger.interestRate);
      var r := GenerateConfirmationCode("INTEREST", now);
      code := r.value;
      balance := balance + interest;
    }
  }

  // ---------------------------------------------------------------------
  // The unit tests of the source, as verified scenarios. Each opens account
  // 400 of Mohammad Jalalnia with a balance of 100 on a fresh ledger; the
  // tests use the zone 'IR' at +3:30, here any valid zone will do.

  /** test_create_account: the account holds what it was opened with. */
  method CreateAccountExample(tz: TimeZone) returns (number: int, first: string, last: string, balance: real, zone: TimeZone)
    requires tz.Valid()
    ensures number == 400 && first == "Mohammad" && last == "Jalalnia"
    ensures balance == 100.0 && zone == tz
  {
    var ledger := new Ledger();
    assert !IsSpace("Mohammad"[0]) && !IsSpace("Jalalnia"[0]);
    var r := Account.Open(ledger, 400, "Mohammad", "Jalalnia", 100.0, Some(tz));
    var a := r.value;
    number, first, last, balance, zone := a.accountNumber, a.firstName, a.lastName, a.balance, a.timezone;
  }

  /** test_create_account_blank_first_name and
      test_create_account_negative_balance: both openings are refused. */
  method RefusedOpeningExample(tz: TimeZone) returns (blankName: Result<Account, Error>, negative: Result<Account, Error>)
    requires tz.Valid()
    ensures blankName == Err(EmptyName("first_name"))
    ensures negative == Err(BelowMinimum("balance", MinimumAmount))
  {
    var ledger := new Ledger();
    assert !IsSpace("Mohammad"[0]) && !IsSpace("Jalalnia"[0]);
    blankName := Account.Open(ledger, 400, "", "Jalalnia", 100.0, Some(tz));
    negative := Account.Open(ledger, 400, "Mohammad", "Jalalnia", -100.0, Some(tz));
  }

  /** test_account_withdraw_ok: withdrawing 20 leaves 80, behind a W code. */
  method WithdrawOkExample(tz: TimeZone, now: DateTime) returns (code: string, balance: real)
    requires tz.Valid() && now.Valid()
    ensures |code| > 2 && code[..2] == "W-" && balance == 80.0
  {
    var ledger := new Ledger();
    assert !IsSpace("Mohammad"[0]) && !IsSpace("Jalalnia"[0]);
    var r := Account.Open(ledger, 400, "Mohammad", "Jalalnia", 100.0, Some(tz));
    var a := r.value;
    var w := a.Withdraw(20.0, now);
    code, balance := w.value, a.balance;
    TagLetters();
  }

  /** test_account_withdraw_overdraft: withdrawing 200 leaves the 100
      untouched, behind an X code. */
  method WithdrawOverdraftExample(tz: TimeZone, now: DateTime) returns (code: string, balance: real)
    requires tz.Valid() && now.Valid()
    ensures |code| > 2 && code[..2] == "X-" && balance == 100.0
  {
    var ledger := new Ledger();
    assert !IsSpace("Mohammad"[0]) && !IsSpace("Jalalnia"[0]);
    var r := Account.Open(ledger, 400, "Mohammad", "Jalalnia", 100.0, Some(tz));
    var a := r.value;
    var w := a.Withdraw(200.0, now);
    code, balance := w.value, a.balance;
    TagLetters();
  }

  /** Two deposits in a row draw the ids 100 and 101 of a fresh ledger, so
      their codes differ; each parses back to the account number and its id. */
  method SuccessiveDepositsExample(tz: TimeZone, now: DateTime) returns (first: string, second: string)
    requires tz.Valid() && now.Valid()
    ensures first == CodeFor(Kind.Deposit, 400, now, 100)
    ensures second == CodeFor(Kind.Deposit, 400, now, 101)
    ensures first != second
    ensures Parse(first, None).Ok? && Parse(first, None).value.transactionId == IntToDecimal(100)
    ensures Parse(second, None).Ok? && Parse(second, None).value.transactionId == IntToDecimal(101)
  {
    var ledger := new Ledger();
    assert !IsSpace("Mohammad"[0]) && !IsSpace("Jalalnia"[0]);
    var r := Account.Open(ledger, 400, "Mohammad", "Jalalnia", 100.0, Some(tz));
    var a := r.value;
    var d := a.Deposit(10.0, now);
    first := d.value;
    d := a.Deposit(10.0, now);
    second := d.value;
    ParseGeneratedUtc(Kind.Deposit, 400, now, 100);
    ParseGeneratedUtc(Kind.Deposit, 400, now, 101);
    if first == second {
      CodeInjective(Tag(Kind.Deposit), 400, ToTimestamp(now), 100, Tag(Kind.Deposit), 400, ToTimestamp(now), 101);
    }
  }
}
