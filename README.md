# A verified model of the `account.py` bank ledger

`account.py` keeps bank accounts that share two pieces of class-wide state:

- a transaction counter, `itertools.count(100)`;
- an interest rate in percent, 5 at first.

Every deposit, withdrawal (rejected ones included) and interest payment
takes the next counter value. It returns a confirmation code
`<tag>-<account number>-<YYYYMMDDHHMMSS>-<id>`, whose tag is D, W, I or X.
`parse_confirmation_code` splits such a code back into its fields. It
renders the UTC time in ISO form and the time in a display zone. A
`TimeZone` is a non-blank name with a fixed offset between -12:00 and +14:00.

The model is split into modules as follows:

| module | file | models |
|---|---|---|
| `Wrappers` | wrappers.dfy | `Option`, `Result` and `Outcome` (pass or fail) in place of `None` and raised exceptions |
| `Errors` | errors.dfy | one variant per `ValueError` (or `KeyError` / `OverflowError`) the core raises |
| `Text` | text.dfy | the pieces of Python string behaviour the core uses: `str.isspace`, `str.strip()`, `str(int)`, `str.split('-')`, `'-'.join` |
| `Clock` | clock.dfy | `datetime` values at second resolution: `strftime('%Y%m%d%H%M%S')`, `strptime` with the same format, `isoformat()`, adding an offset of under a day |
| `TimeZones` | timezones.dfy | the `TimeZone` value object: its constructor, `offset`, `__eq__` |
| `Codes` | codes.dfy | `Transaction_Code`, the code built by `generation_confirmation_code`, `parse_confirmation_code` |
| `Accounts` | accounts.dfy | the class-level state (`Ledger`), the `Account` object, its checks, setters and balance operations, and the unit tests as scenarios |

Pure parts are functions and lemmas. These are TimeZone construction and
equality, the tag lookup, the code format and the parser. State that the
source updates in place lives in classes:

- `Ledger` holds the counter (`nextId`) and the interest rate. It also has a
  ghost record `issued` of the ids handed out so far.
- `Account` holds the number, the names, the balance, the zone and a
  reference to the shared `Ledger`.

Its methods say exactly how the new state follows from the old one. They
keep `Valid()`, which covers:

- a non-negative account number;
- non-blank names;
- a non-negative balance;
- a valid zone;
- the counter having handed out exactly 100, 101, … in order;
- a non-negative rate.

Amounts and rates are exact `real`s. Offsets are counted in minutes. The
clock reading `datetime.utcnow()` is passed in as the parameter `now`.

Where a reader might expect otherwise, the model follows the code:

- A name is refused when it is blank after `strip()`, not only when it is
  empty.
- A name is stored as given. A TimeZone name is stored stripped.
- The withdrawal test opens a fresh account of 100 for the overdraft case.

## Model

| member | source | states |
|---|---|---|
| `Text.IsSpace` | account.py:18 | the white space `strip()` removes includes neither digits nor '-' |
| `Text.Strip` | account.py:18-21 | `strip()` is `s` with a white-space prefix and a white-space suffix cut off. It is empty exactly when every character is white space; otherwise it starts and ends with a non-space, which makes the cut unique |
| `Text.StripIdempotent` | account.py:21 | a stripped name stays the same when stripped again |
| `Text.NatToDecimal` | account.py:201-202 | `str(n)` of a non-negative `n` is a non-empty digit string that starts with '0' only for zero |
| `Text.IntToDecimal` | account.py:201-202 | `str(i)` holds a '-' exactly when `i` is negative, and then only as its first character |
| `Text.NatToDecimalValue` | account.py:201-202 | `str(n)` of a non-negative `n` reads back as `n` |
| `Text.NatToDecimalInjective` | account.py:201-202 | different numbers print differently |
| `Text.Split` | account.py:207 | `split('-')` gives at least one piece, and no piece holds a '-' |
| `Text.SplitLength` | account.py:207-208 | the number of pieces is the number of dashes plus one |
| `Text.JoinSplit` | account.py:207-210 | joining the pieces with '-' gives back the code |
| `Text.SplitAtDash` | account.py:207 | a dash-free head followed by '-' splits off as the first piece |
| `Text.SplitThree` | account.py:207 | three dash-free pieces joined by '-' split back into those pieces |
| `Clock.ToTimestamp` | account.py:198 | the `%Y%m%d%H%M%S` rendering has fourteen digits and no '-' |
| `Clock.ParseTimestamp` | account.py:212-215 | `strptime` succeeds only with a valid date-time |
| `Clock.TimestampRoundTrip` | account.py:198-213 | every rendered clock reading parses back to itself |
| `Clock.TimestampCanonical` | account.py:212-215 | every accepted timestamp is the rendering of what it parsed to |
| `Clock.IsoFormat` | account.py:227 | `isoformat()` of a date-time without microseconds has nineteen characters |
| `Clock.IsoFormatDigits` | account.py:227 | `isoformat()` holds the same digits as the timestamp, with '-', 'T' and ':' at fixed places |
| `Clock.AddMinutes` | account.py:223 | adding an offset under a day fails exactly when it moves back past the first day of year 1 or forward past the last day of year 9999. Otherwise the result is valid, keeps the seconds and moves the time of day by the offset modulo a day. Its date is the same day, the previous day or the next day, as the time of day wraps below zero or past midnight |
| `Clock.NextDay` | account.py:223 | the following day exists exactly when the date is not 9999-12-31; it is a valid, later date with the same time of day |
| `Clock.NextDayLeast` | account.py:223 | no valid date lies between a date and its following day |
| `Clock.PrevDay` | account.py:223 | the preceding day exists exactly when the date is not 0001-01-01; it is a valid, earlier date with the same time of day |
| `Clock.PrevDayGreatest` | account.py:223 | no valid date lies between a date and its preceding day |
| `Clock.PrevNextDay` | account.py:223 | stepping a day forward and then back returns the original date-time |
| `Clock.NextPrevDay` | account.py:223 | stepping a day back and then forward returns the original date-time |
| `Clock.AddZeroMinutes` | account.py:218-223 | adding a zero offset changes nothing |
| `Clock.AddMinutesInverse` | account.py:223 | adding an offset and then its negation returns the original date-time |
| `TimeZones.MakeTimeZone` | account.py:16-38 | succeeds iff the name holds a non-space character, the minutes lie in -59..59 and 60·hours+minutes lies in -720..840. On success the name is the stripped name, both offset fields are kept, and the offset is 60·hours+minutes. Each failure is named, in the source's order. An all-blank name gives the empty-name error. Otherwise minutes outside -59..59 give the minute error. Otherwise an offset beyond the 999999999 days a `timedelta` holds gives the overflow error. Otherwise an offset outside -12:00..+14:00 gives the offset-range error |
| `TimeZones.OverflowExample` | account.py:32-34 | 24000000000 hours overflows the `timedelta`, while 15 hours reaches the range check and fails it |
| `TimeZones.UtcIsValid` | account.py:110 | `TimeZone('UTC', 0, 0)` satisfies every constructor check |
| `TimeZones.Equal` | account.py:51-57 | `__eq__` holds for identical zones, and equal constructed zones have the same offset |
| `TimeZones.EqualIsIdentity` | account.py:51-57 | on constructed zones, `__eq__` (name, hours, minutes) holds exactly when the zones are identical |
| `TimeZones.StrippedNamesEqual` | account.py:18-21 | names that strip to the same text give equal zones |
| `TimeZones.SameOffsetNotEqual` | account.py:51-57 | zones with the same combined offset but different fields are unequal |
| `TimeZones.CreateExample` | account.py:284-287 | 'ABC' at -1:-31 is built, named 'ABC', with offset -91 minutes |
| `TimeZones.EqualityExamples` | account.py:290-307 | the equal and unequal zone pairs of the tests |
| `Codes.KindFromName` | account.py:81-86 | `Transaction_Code[name]` finds the member of that name, and fails exactly when there is none |
| `Codes.KindFromNameRoundTrip` | account.py:81-86 | every member is found by its own name |
| `Codes.Value` | account.py:81-86 | `.value` is a plain string only for REJECTED; the other three are 1-tuples; each holds one character |
| `Codes.First` | account.py:199 | `[0]` of a 1-tuple is its item, and `[0]` of a string is its first character |
| `Codes.Tag` | account.py:199 | `.value[0]` is a single character without '-' |
| `Codes.TagLetters` | account.py:81-86 | the tags are D, W, I and X despite the 1-tuple and plain-string values, and no two kinds share one |
| `Codes.Code` | account.py:201-202 | the f-string opens with the tag and a '-', and ends with a '-' and `str(id)` |
| `Codes.CodeGrouped` | account.py:201-202 | the code is the tag, the account number, the timestamp and the id joined by '-' |
| `Codes.CodeFor` | account.py:197-202 | a code starts with its kind's tag and a '-' |
| `Codes.DisplayZone` | account.py:217-218 | the display zone's offset is within -12:00..+14:00 |
| `Codes.LocalTime` | account.py:223-224 | the local rendering exists exactly when shifting by the zone's offset stays within years 1..9999 |
| `Codes.ParseIn` | account.py:207-227 | parsing in a given zone classifies every error. Fewer or more than three dashes give the invalid-code error. Otherwise an unparsable timestamp piece gives the invalid-datetime error. Otherwise the parse succeeds exactly when the shift into the zone stays in range, and fails with the date error when it does not. On success, the tag, account and id are the raw pieces, and the UTC and local renderings are those of the parsed timestamp |
| `Codes.Parse` | account.py:206-227 | the same, for the preferred zone or UTC |
| `Codes.ParseAnyPieces` | account.py:206-227 | any dash-free pieces around a valid timestamp (not only generated codes, e.g. "Q-abc-20240101000000-zz") parse back to exactly those pieces; the only failure is the date error |
| `Codes.ParseReassembles` | account.py:207-213 | a code that parses is the '-'-join of its fields, and its UTC rendering is the ISO form of its timestamp field |
| `Codes.SplitCode` | account.py:201-207 | a code with a non-negative account number splits into exactly its four fields |
| `Codes.ParseGenerated` | account.py:197-227 | round trip: a generated code parses back to the tag character, `str(account_number)`, `str(id)` and the ISO rendering of the clock reading; it fails only when the zone shift leaves the calendar, and then with the date error |
| `Codes.DefaultLocalTime` | account.py:217-224 | without a preferred zone the local rendering is the timestamp tagged "(UTC)" |
| `Codes.ParseGeneratedUtc` | account.py:206-227 | without a preferred zone, parsing a generated code always succeeds |
| `Codes.ParsedNumbers` | account.py:201-210 | the parsed account number and id are digit strings denoting the numbers encoded |
| `Codes.CodeInjective` | account.py:201-202 | equal codes carry equal tag, account number, timestamp and id, so codes drawing different ids differ |
| `Codes.NegativeCodeShape` | account.py:100-101 | the code of a negative account number holds an extra '-' after the tag's '-' |
| `Codes.NegativeAccountSplit` | account.py:100-101 | the code of a negative account number splits into five pieces |
| `Codes.NegativeAccountUnparsable` | account.py:100-101 | such a code gets the invalid-code error, so a negative account number could not round-trip through the parser |
| `Accounts.ValidateName` | account.py:181-184 | a name is refused exactly when it is blank, with the field's empty-name error |
| `Accounts.ValidateRealNumber` | account.py:187-194 | a value is returned unchanged exactly when no minimum is given or it reaches the minimum; otherwise the field's below-minimum error |
| `Accounts.OpeningError` | account.py:95-107 | the constructor succeeds iff the number is non-negative, both names are non-blank and the balance is at least 0.01. Otherwise it fails with the first failing check's error, in the source's order |
| `Accounts.DefaultBalanceRejected` | account.py:95-107 | the default `initial_balance=0` is always refused |
| `Accounts.InterestOn` | account.py:257 | at a non-negative rate the interest on a non-negative balance is never negative, and is zero on a zero balance or at a zero rate |
| `Accounts.Ledger.constructor` | account.py:91-92 | the counter starts at 100, nothing is issued yet, and the rate is 5 |
| `Accounts.Ledger.NextTransactionId` | account.py:92 | `next(counter)` returns the current value, which was never issued before, and advances by exactly one |
| `Accounts.Ledger.SetInterestRate` | account.py:170-178 | a negative rate is refused and changes nothing; any other rate replaces the current one |
| `Accounts.IssuedIncreasing` | account.py:92 | ids are issued in strictly increasing order, all below the next value |
| `Accounts.DefaultTimeZone` | account.py:109-110 | the default zone is a valid zone named 'UTC' with zero offset |
| `Accounts.Account.constructor` | account.py:103-111 | once the checks have passed, the account holds exactly the given values and is valid |
| `Accounts.Account.Open` | account.py:95-111 | fails exactly with `OpeningError`'s error; otherwise a new valid account with the given number, names and balance, in the given zone or in UTC |
| `Accounts.Account.SetFirstName` | account.py:133-135 | a blank first name is refused and changes nothing; any other is stored as given |
| `Accounts.Account.SetLastName` | account.py:143-145 | the same for the last name |
| `Accounts.Account.SetTimeZone` | account.py:158-162 | any valid zone is stored |
| `Accounts.Account.GenerateConfirmationCode` | account.py:197-202 | an unknown kind name fails before the counter moves. Otherwise the result is the code for that kind, account, clock reading and current counter value, and the counter advances by exactly one |
| `Accounts.Account.Deposit` | account.py:230-236 | below 0.01: an error, with the balance and counter unchanged. Otherwise a D code drawing the next id, and the balance grows by exactly the amount |
| `Accounts.Account.Withdraw` | account.py:239-253 | below 0.01: an error with nothing changed. Above the balance: an X code with the balance unchanged. Otherwise, the whole balance included: a W code and the balance drops by exactly the amount. Every accepted call draws the next id, and the balance never goes negative |
| `Accounts.Account.PayInterest` | account.py:256-260 | draws an I code and adds `balance * rate / 100`; the balance never decreases |
| `Accounts.CreateAccountExample` | account.py:310-319 | account 400 of Mohammad Jalalnia, opened with 100, holds those values and its zone |
| `Accounts.RefusedOpeningExample` | account.py:322-333 | a blank first name and a balance of -100 are refused with their errors |
| `Accounts.WithdrawOkExample` | account.py:336-343 | withdrawing 20 from 100 leaves 80, with a code starting "W-" |
| `Accounts.WithdrawOverdraftExample` | account.py:346-353 | withdrawing 200 from 100 leaves 100, with a code starting "X-" |
| `Accounts.SuccessiveDepositsExample` | account.py:230-236 | two deposits on a fresh ledger draw ids 100 and 101, their codes differ, and each parses back to its id |

## Left out

- `datetime.utcnow()` (account.py:198) reads the clock. It is the parameter `now`.
- `Clock.ParseTimestamp` accepts exactly fourteen ASCII digits that form a valid date-time, which includes everything `strftime` produces. Python's `strptime` is more lenient, and none of its other accepted forms are modelled. Among them:
  - some shorter, non-padded fields, such as a one-digit month;
  - non-ASCII decimal digits (its `\d` pattern matches any Unicode digit), e.g. a full-width '４' in the year;
  - a day written as a space and one digit (`%d` also matches ' 1' to ' 9'), e.g. "202401 1000000".
- Seconds of 60 or 61 are left out. `strptime` reads them, but `datetime` then refuses them, so the model refuses them too.
- Floating point is left out. Balances, amounts and rates are exact reals. Rounding, `nan` and infinities are not modelled. With floats, a `nan` deposit passes the `< 0.01` check.
- The `isinstance` checks (account.py:23-27, 97, 160, 172, 189, 220) are enforced by the types. Passing `None` as a name cannot be expressed.
- `Codes.Parse` (the static `parse_confirmation_code`) reads no state, because it is a function. Parsing the same code twice therefore gives the same result with no lemma needed.
- `Codes.LocalTime` models `datetime + timedelta` only for the offsets a `TimeZone` allows, which are under one day. An `OverflowError` there becomes the `DateOutOfRange` error.
- `TimerError`, `TransactionID` (unused; it would return its start value plus one first), `make_transaction_codes`, `__repr__`, `full_name`, the property getters and the `pprint` import are not modelled.
- The unittest harness and `run_tests` (account.py:264-355) are not modelled as such; the tests are restated as the scenario methods above.
- Ids issued before a `Ledger` is created are not modelled. The source has one counter per process; the model allows any number of `Ledger` objects, and each scenario uses a fresh one.
