/** The confirmation-code codec: the transaction kinds and their tags, the
    code `<tag>-<account>-<YYYYMMDDHHMMSS>-<id>` and its parser. */
module Codes {
  import opened Wrappers
  import opened Errors
  import opened Text
  import opened Clock
  import opened TimeZones

  /** The members of the `Transaction_Code` enumeration. */
  datatype Kind = Deposit | Withdraw | Interest | Rejected

  /** The member name `Transaction_Code[name]` looks up. */
  function KindName(k: Kind): string {
    match k
    case Deposit => "DEPOSIT"
    case Withdraw => "WITHDRAW"
    case Interest => "INTEREST"
    case Rejected => "REJECTED"
  }

  /** `Transaction_Code[name]`: `None` where Python raises KeyError. */
  function KindFromName(name: string): (r: Option<Kind>)
    ensures r.Some? ==> KindName(r.value) == name
    ensures r.None? ==> forall k: Kind :: KindName(k) != name
  {
    if name == "DEPOSIT" then Some(Deposit)
    else if name == "WITHDRAW" then Some(Withdraw)
    else if name == "INTEREST" then Some(Interest)
    else if name == "REJECTED" then Some(Rejected)
    else None
  }

  lemma KindFromNameRoundTrip(k: Kind)
    ensures KindFromName(KindName(k)) == Some(k)
  {
  }

  /** An enum member's `.value`: the first three are written with a trailing
      comma and so are 1-tuples of a string; REJECTED is a plain string. */
  datatype EnumValue = OneTuple(item: string) | Plain(text: string)

  function Value(k: Kind): (v: EnumValue)
    ensures v.Plain? <==> k == Rejected
    ensures v.OneTuple? ==> |v.item| == 1
    ensures v.Plain? ==> |v.text| == 1
  {
    match k
    case Deposit => OneTuple("D")
    case Withdraw => OneTuple("W")
    case Interest => OneTuple("I")
    case Rejected => Plain("X")
  }

  /** `value[0]`: the tuple's only item, or the string's first character. */
  function First(v: EnumValue): (s: string)
    requires v.Plain? ==> |v.text| > 0
    ensures v.OneTuple? ==> s == v.item
    ensures v.Plain? ==> |s| == 1 && s[0] == v.text[0]
  {
    match v
    case OneTuple(item) => item
    case Plain(text) => text[..1]
  }

  /** The tag a code starts with: `Transaction_Code[...].value[0]`. */
  function Tag(k: Kind): (t: string)
    ensures |t| == 1 && '-' !in t
  {
    First(Value(k))
  }

  /** Despite the two shapes of enum value, every kind yields the single
      letter D, W, I or X, and no two kinds share one. */
  lemma TagLetters()
    ensures Tag(Deposit) == "D" && Tag(Withdraw) == "W"
    ensures Tag(Interest) == "I" && Tag(Rejected) == "X"
    ensures forall k1: Kind, k2: Kind :: Tag(k1) == Tag(k2) ==> k1 == k2
  {
    assert "X"[..1] == "X";
  }

  /** The code for a transaction: the f-string of `generation_confirmation_code`. */
  function Code(tag: string, accountNumber: int, timestamp: string, id: int): (c: string)
    ensures |c| > |tag| + |IntToDecimal(id)| + 1
    ensures c[..|tag| + 1] == tag + "-"
    ensures c[|c| - |IntToDecimal(id)| - 1..] == "-" + IntToDecimal(id)
  {
    var a, i := IntToDecimal(accountNumber), IntToDecimal(id);
    var c := tag + "-" + a + "-" + timestamp + "-" + i;
    assert c == (tag + "-") + (a + "-" + timestamp) + ("-" + i);
    c
  }

  /** The code for a kind, account and clock reading. */
  function CodeFor(k: Kind, accountNumber: int, now: DateTime, id: int): (c: string)
    requires now.Valid()
    ensures |c| > 2 && c[..2] == Tag(k) + "-"
  {
    Code(Tag(k), accountNumber, ToTimestamp(now), id)
  }

  /** The `Confirmation` named tuple `parse_confirmation_code` returns. */
  datatype Confirmation = Confirmation(
    accountNumber: string,
    transactionCode: string,
    transactionId: string,
    timeUtc: string,
    time: string)

  /** The zone `parse_confirmation_code` renders in: the preferred one, or
      `TimeZone('UTC', 0, 0)` when none is given. */
  function DisplayZone(preferred: Option<TimeZone>): (tz: TimeZone)
    requires preferred.Some? ==> preferred.value.Valid()
    ensures MinOffset <= tz.offset <= MaxOffset
  {
    if preferred.Some? then preferred.value else Utc
  }

  /** The local rendering `YYYYMMDDHHMMSS (name)` of a UTC reading in a
      zone: `None` where the shift raises OverflowError. */
  function LocalTime(utc: DateTime, tz: TimeZone): (r: Option<string>)
    requires utc.Valid() && MinOffset <= tz.offset <= MaxOffset
    ensures r.Some? <==> AddMinutes(utc, tz.offset).Some?
  {
    match AddMinutes(utc, tz.offset)
    case None => None
    case Some(local) => Some(ToTimestamp(local) + " (" + tz.name + ")")
  }

  /** The work of `parse_confirmation_code` once the display zone is known:
      split on '-', demand four pieces, parse the timestamp, shift it into
      the zone and return the raw pieces with both renderings. */
  function ParseIn(code: string, tz: TimeZone): (r: Result<Confirmation, Error>)
    requires MinOffset <= tz.offset <= MaxOffset
    ensures r == Err(InvalidConfirmationCode) <==> DashCount(code) != 3
    ensures |Split(code)| == 4 ==>
              (r == Err(InvalidTransactionDateTime) <==> ParseTimestamp(Split(code)[2]).None?)
    ensures |Split(code)| == 4 && ParseTimestamp(Split(code)[2]).Some? ==>
              && (r.Ok? <==> AddMinutes(ParseTimestamp(Split(code)[2]).value, tz.offset).Some?)
              && (r.Err? ==> r.error == DateOutOfRange)
    ensures r.Ok? ==>
              && |Split(code)| == 4
              && ParseTimestamp(Split(code)[2]).Some?
              && r.value.transactionCode == Split(code)[0]
              && r.value.accountNumber == Split(code)[1]
              && r.value.transactionId == Split(code)[3]
              && r.value.timeUtc == IsoFormat(ParseTimestamp(Split(code)[2]).value)
              && Some(r.value.time) == LocalTime(ParseTimestamp(Split(code)[2]).value, tz)
  {
    SplitLength(code);
    var parts := Split(code);
    if |parts| != 4 then Err(InvalidConfirmationCode)
    else
      match ParseTimestamp(parts[2])
      case None => Err(InvalidTransactionDateTime)
      case Some(utc) =>
        match LocalTime(utc, tz)
        case None => Err(DateOutOfRange)
        case Some(time) => Ok(Confirmation(parts[1], parts[0], parts[3], IsoFormat(utc), time))
  }

  /** `parse_confirmation_code(code, preferred)`: parses in the preferred
      zone, or in UTC when none is given. Fails with InvalidConfirmationCode
      exactly when the code does not hold three dashes. */
  function Parse(code: string, preferred: Option<TimeZone>): (r: Result<Confirmation, Error>)
    requires preferred.Some? ==> preferred.value.Valid()
    ensures r == Err(InvalidConfirmationCode) <==> DashCount(code) != 3
    ensures |Split(code)| == 4 ==>
              (r == Err(InvalidTransactionDateTime) <==> ParseTimestamp(Split(code)[2]).None?)
    ensures |Split(code)| == 4 && ParseTimestamp(Split(code)[2]).Some? ==>
              && (r.Ok? <==> AddMinutes(ParseTimestamp(Split(code)[2]).value, DisplayZone(preferred).offset).Some?)
              && (r.Err? ==> r.error == DateOutOfRange)
    ensures r.Ok? ==>
              && |Split(code)| == 4
              && ParseTimestamp(Split(code)[2]).Some?
              && r.value.transactionCode == Split(code)[0]
              && r.value.accountNumber == Split(code)[1]
              && r.value.transactionId == Split(code)[3]
              && r.value.timeUtc == IsoFormat(ParseTimestamp(Split(code)[2]).value)
              && Some(r.value.time) == LocalTime(ParseTimestamp(Split(code)[2]).value, DisplayZone(preferred))
  {
    ParseIn(code, DisplayZone(preferred))
  }

  /** A code that parses is the '-'-join of the fields it parsed into, and
      its UTC rendering is the ISO form of its timestamp field. */
  lemma ParseReassembles(code: string, preferred: Option<TimeZone>)
    requires preferred.Some? ==> preferred.value.Valid()
    requires Parse(code, preferred).Ok?
    ensures var c := Parse(code, preferred).value;
            && |Split(code)| == 4
            && ParseTimestamp(Split(code)[2]).Some?
            && c.timeUtc == IsoFormat(ParseTimestamp(Split(code)[2]).value)
            && code == Join([c.transactionCode, c.accountNumber, Split(code)[2], c.transactionId])
  {
    var parts := Split(code);
    JoinSplit(code);
    assert parts == [parts[0], parts[1], parts[2], parts[3]];
  }

  /** The parser does not check the pieces around the timestamp: any three
      dash-free pieces around a valid timestamp (so "Q-abc-20240101000000-zz"
      as well as a generated code) come back exactly as given, and the parse
      fails only when the shift into the display zone leaves the calendar. */
  lemma ParseAnyPieces(tag: string, account: string, timestamp: string, id: string, preferred: Option<TimeZone>)
    requires '-' !in tag && '-' !in account && '-' !in timestamp && '-' !in id
    requires ParseTimestamp(timestamp).Some?
    requires preferred.Some? ==> preferred.value.Valid()
    ensures var r := Parse(tag + "-" + account + "-" + timestamp + "-" + id, preferred);
            && (r.Ok? <==> AddMinutes(ParseTimestamp(timestamp).value, DisplayZone(preferred).offset).Some?)
            && (r.Err? ==> r.error == DateOutOfRange)
            && (r.Ok? ==>
                  && r.value.transactionCode == tag
                  && r.value.accountNumber == account
                  && r.value.transactionId == id
                  && r.value.timeUtc == IsoFormat(ParseTimestamp(timestamp).value))
  {
    var code := tag + "-" + account + "-" + timestamp + "-" + id;
    assert code == tag + "-" + (account + "-" + (timestamp + "-" + id));
    SplitAtDash(tag, account + "-" + (timestamp + "-" + id));
    SplitAtDash(account, timestamp + "-" + id);
    SplitAtDash(timestamp, id);
    SplitNoDash(id);
    assert Split(code) == [tag, account, timestamp, id];
  }

  /** A code regrouped from the right, the way `Split` takes it apart. */
  lemma CodeGrouped(tag: string, accountNumber: int, timestamp: string, id: int)
    ensures var a, i := IntToDecimal(accountNumber), IntToDecimal(id);
            Code(tag, accountNumber, timestamp, id) == tag + "-" + (a + "-" + (timestamp + "-" + i))
  {
    var a, i := IntToDecimal(accountNumber), IntToDecimal(id);
    var p, q := tag + "-", timestamp + "-" + i;
    ConcatAssoc(timestamp, "-", i);
    ConcatAssoc(p + a + "-", timestamp, "-" + i);
    ConcatAssoc(p + a, "-", q);
    ConcatAssoc(p, a, "-" + q);
    ConcatAssoc(a, "-", q);
  }

  /** With dash-free tag and timestamp and a non-negative account number and
      id, a code splits into exactly its four fields. */
  lemma SplitCode(tag: string, accountNumber: int, timestamp: string, id: int)
    requires '-' !in tag && '-' !in timestamp && accountNumber >= 0 && id >= 0
    ensures Split(Code(tag, accountNumber, timestamp, id))
         == [tag, IntToDecimal(accountNumber), timestamp, IntToDecimal(id)]
  {
    var a, i := IntToDecimal(accountNumber), IntToDecimal(id);
    CodeGrouped(tag, accountNumber, timestamp, id);
    SplitAtDash(tag, a + "-" + (timestamp + "-" + i));
    SplitAtDash(a, timestamp + "-" + i);
    SplitAtDash(timestamp, i);
    SplitNoDash(i);
  }

  /** Round trip: parsing a generated code gives back the tag character (not
      the kind name), `str(account_number)`, the timestamp and `str(id)`. The
      UTC rendering is the ISO form of the clock reading; the local rendering
      is the reading shifted into the preferred zone, which fails only when
      that shift leaves the years 1..9999. */
  lemma ParseGenerated(k: Kind, accountNumber: int, now: DateTime, id: int, preferred: Option<TimeZone>)
    requires accountNumber >= 0 && id >= 0 && now.Valid()
    requires preferred.Some? ==> preferred.value.Valid()
    ensures var tz := DisplayZone(preferred);
            var r := Parse(CodeFor(k, accountNumber, now, id), preferred);
            && (r.Ok? <==> AddMinutes(now, tz.offset).Some?)
            && (r.Err? ==> r.error == DateOutOfRange)
            && (r.Ok? ==>
                  && r.value.transactionCode == Tag(k)
                  && r.value.accountNumber == IntToDecimal(accountNumber)
                  && r.value.transactionId == IntToDecimal(id)
                  && r.value.timeUtc == IsoFormat(now)
                  && r.value.time == LocalTime(now, tz).value)
  {
    var ts := ToTimestamp(now);
    var parts := Split(CodeFor(k, accountNumber, now, id));
    SplitCode(Tag(k), accountNumber, ts, id);
    assert parts == [Tag(k), IntToDecimal(accountNumber), ts, IntToDecimal(id)];
    TimestampRoundTrip(now);
    assert ParseTimestamp(parts[2]) == Some(now);
  }

  /** Without a preferred zone the local rendering is the UTC timestamp
      itself, tagged "(UTC)". */
  lemma DefaultLocalTime(utc: DateTime)
    requires utc.Valid()
    ensures LocalTime(utc, DisplayZone(None)) == Some(ToTimestamp(utc) + " (UTC)")
  {
    var tz := DisplayZone(None);
    assert tz == Utc;
    AddZeroMinutes(utc);
    assert LocalTime(utc, tz) == Some(ToTimestamp(utc) + " (" + tz.name + ")");
    assert ToTimestamp(utc) + " (" + tz.name + ")" == ToTimestamp(utc) + " (UTC)";
  }

  /** Without a preferred zone, parsing a generated code never fails, and the
      local rendering is the timestamp itself tagged "(UTC)". */
  lemma ParseGeneratedUtc(k: Kind, accountNumber: int, now: DateTime, id: int)
    requires accountNumber >= 0 && id >= 0 && now.Valid()
    ensures var r := Parse(CodeFor(k, accountNumber, now, id), None);
            && r.Ok?
            && r.value.transactionCode == Tag(k)
            && r.value.accountNumber == IntToDecimal(accountNumber)
            && r.value.transactionId == IntToDecimal(id)
            && r.value.timeUtc == IsoFormat(now)
            && r.value.time == ToTimestamp(now) + " (UTC)"
  {
    DefaultLocalTime(now);
    ParseGenerated(k, accountNumber, now, id, None);
  }

  /** The account number and the id read back as the numbers encoded. */
  lemma ParsedNumbers(k: Kind, accountNumber: nat, now: DateTime, id: nat)
    requires now.Valid()
    ensures var r := Parse(CodeFor(k, accountNumber, now, id), None);
            && r.Ok? && AllDigits(r.value.accountNumber) && AllDigits(r.value.transactionId)
            && DecimalValue(r.value.accountNumber) == accountNumber
            && DecimalValue(r.value.transactionId) == id
  {
    ParseGeneratedUtc(k, accountNumber, now, id);
    NatToDecimalValue(accountNumber);
    NatToDecimalValue(id);
  }

  /** Codes are unambiguous: two well-formed codes are equal only when they
      carry the same tag, account, timestamp and id. In particular codes that
      consume different ids are different. */
  lemma CodeInjective(t1: string, a1: int, ts1: string, id1: int, t2: string, a2: int, ts2: string, id2: int)
    requires '-' !in t1 && '-' !in ts1 && a1 >= 0 && id1 >= 0
    requires '-' !in t2 && '-' !in ts2 && a2 >= 0 && id2 >= 0
    requires Code(t1, a1, ts1, id1) == Code(t2, a2, ts2, id2)
    ensures t1 == t2 && a1 == a2 && ts1 == ts2 && id1 == id2
  {
    SplitCode(t1, a1, ts1, id1);
    SplitCode(t2, a2, ts2, id2);
    NatToDecimalInjective(a1, a2);
    NatToDecimalInjective(id1, id2);
  }

  /** `str()` of a negative account number starts with '-', so the code
      splits into five pieces, the second of them empty. */
  lemma NegativeAccountSplit(tag: string, accountNumber: int, timestamp: string, id: int)
    requires '-' !in tag && '-' !in timestamp && accountNumber < 0 && id >= 0
    ensures Split(Code(tag, accountNumber, timestamp, id))
         == [tag, [], NatToDecimal(-accountNumber), timestamp, IntToDecimal(id)]
  {
    var i := IntToDecimal(id);
    var n := NatToDecimal(-accountNumber);
    var rest := n + "-" + (timestamp + "-" + i);
    NegativeCodeShape(tag, accountNumber, timestamp, id);
    SplitAtDash(tag, [] + "-" + rest);
    SplitAtDash([], rest);
    assert '-' !in n by { assert forall j :: 0 <= j < |n| ==> IsDigit(n[j]); }
    SplitThree(n, timestamp, i);
    assert [tag] + ([[]] + [n, timestamp, i]) == [tag, [], n, timestamp, i];
  }

  /** The code of a negative account number, regrouped around its dashes. */
  lemma NegativeCodeShape(tag: string, accountNumber: int, timestamp: string, id: int)
    requires accountNumber < 0
    ensures var n, i := NatToDecimal(-accountNumber), IntToDecimal(id);
            Code(tag, accountNumber, timestamp, id) == tag + "-" + ([] + "-" + (n + "-" + (timestamp + "-" + i)))
  {
    var n, a := NatToDecimal(-accountNumber), IntToDecimal(accountNumber);
    var rest := timestamp + "-" + IntToDecimal(id);
    CodeGrouped(tag, accountNumber, timestamp, id);
    assert a == "-" + n;
    ConcatAssoc("-" + n, "-", rest);
    ConcatAssoc("-", n, "-" + rest);
    ConcatAssoc(n, "-", rest);
    assert [] + "-" == "-";
  }

  /** The code of a negative account number does not parse, so such a
      number could not round-trip through the parser. */
  lemma NegativeAccountUnparsable(k: Kind, accountNumber: int, now: DateTime, id: int, preferred: Option<TimeZone>)
    requires accountNumber < 0 && id >= 0 && now.Valid()
    requires preferred.Some? ==> preferred.value.Valid()
    ensures Parse(CodeFor(k, accountNumber, now, id), preferred) == Err(InvalidConfirmationCode)
  {
    var code := CodeFor(k, accountNumber, now, id);
    NegativeAccountSplit(Tag(k), accountNumber, ToTimestamp(now), id);
    SplitLength(code);
  }
}
