/** The pieces of Python's string behaviour the ledger relies on:
    `str.isspace` / `str.strip()`, `str(int)`, `str.split('-')` and joining
    with '-'. */
module Text {

  /** Python 3's `str.isspace` for one character (the Unicode white-space
      set it uses). */
  predicate IsSpace(c: char)
    ensures IsSpace(c) ==> c != '-' && !IsDigit(c)
  {
    var n := c as int;
    (9 <= n <= 13) || (28 <= n <= 32) || n == 0x85 || n == 0xA0 || n == 0x1680
    || (0x2000 <= n <= 0x200A) || n == 0x2028 || n == 0x2029 || n == 0x202F
    || n == 0x205F || n == 0x3000
  }

  /** The index of the first character at or after `i` that is not white
      space (`|s|` if there is none): where `s.lstrip()` starts. */
  function SkipSpaces(s: string, i: nat): (j: nat)
    requires i <= |s|
    ensures i <= j <= |s|
    ensures forall k :: i <= k < j ==> IsSpace(s[k])
    ensures j < |s| ==> !IsSpace(s[j])
    decreases |s| - i
  {
    if i == |s| || !IsSpace(s[i]) then i else SkipSpaces(s, i + 1)
  }

  /** The index just past the last character before `j` that is not white
      space (0 if there is none): where `s.rstrip()` ends. */
  function SkipSpacesBack(s: string, j: nat): (i: nat)
    requires j <= |s|
    ensures i <= j
    ensures forall k :: i <= k < j ==> IsSpace(s[k])
    ensures i > 0 ==> !IsSpace(s[i - 1])
  {
    if j == 0 || !IsSpace(s[j - 1]) then j else SkipSpacesBack(s, j - 1)
  }

  /** `s.strip()`: `s` with a white-space prefix and a white-space suffix
      cut off, leaving a result that is empty exactly when `s` is all white
      space and otherwise starts and ends with a character that is not. */
  function Strip(s: string): (r: string)
    ensures |r| <= |s|
    ensures exists lo, hi :: 0 <= lo <= hi <= |s| && r == s[lo..hi] && IsBlank(s[..lo]) && IsBlank(s[hi..])
    ensures r == [] <==> forall i :: 0 <= i < |s| ==> IsSpace(s[i])
    ensures r != [] ==> !IsSpace(r[0]) && !IsSpace(r[|r| - 1])
  {
    var lo := SkipSpaces(s, 0);
    var hi := SkipSpacesBack(s, |s|);
    if hi <= lo then
      assert s[0..0] == [] && IsBlank(s[..0]) && IsBlank(s[0..]);
      []
    else
      assert IsBlank(s[..lo]) && IsBlank(s[hi..]);
      s[lo..hi]
  }

  /** The test `len(str(value).strip()) == 0` used for every name: by the
      contract of `Strip`, it holds exactly when every character is white
      space. */
  predicate IsBlank(s: string) {
    forall i :: 0 <= i < |s| ==> IsSpace(s[i])
  }

  /** Stripping twice changes nothing more than stripping once. */
  lemma StripIdempotent(s: string)
    ensures Strip(Strip(s)) == Strip(s)
  {
    var r := Strip(s);
    if r != [] {
      assert SkipSpaces(r, 0) == 0;
      assert SkipSpacesBack(r, |r|) == |r|;
      assert r[0..|r|] == r;
    }
  }

  // ---------------------------------------------------------------------
  // Decimal digits

  predicate IsDigit(c: char) {
    '0' <= c <= '9'
  }

  predicate AllDigits(s: string) {
    forall i :: 0 <= i < |s| ==> IsDigit(s[i])
  }

  function DigitChar(d: int): (c: char)
    requires 0 <= d < 10
    ensures IsDigit(c)
  {
    ('0' as int + d) as char
  }

  function DigitValue(c: char): (d: int)
    requires IsDigit(c)
    ensures 0 <= d < 10 && DigitChar(d) == c
  {
    c as int - '0' as int
  }

  /** The number a string of decimal digits denotes (leading zeros allowed). */
  function DecimalValue(s: string): nat
    requires AllDigits(s)
  {
    if s == [] then 0 else DecimalValue(s[..|s| - 1]) * 10 + DigitValue(s[|s| - 1])
  }

  function Pow10(n: nat): (p: nat)
    ensures p >= 1
  {
    if n == 0 then 1 else 10 * Pow10(n - 1)
  }

  /** The low `width` decimal digits of `n`, zero-padded: the `%0<width>d`
      fields of `strftime`. */
  function PadDecimal(n: nat, width: nat): (s: string)
    ensures |s| == width && AllDigits(s)
  {
    if width == 0 then [] else PadDecimal(n / 10, width - 1) + [DigitChar(n % 10)]
  }

  lemma DecimalValueSnoc(s: string, c: char)
    requires AllDigits(s) && IsDigit(c)
    ensures AllDigits(s + [c]) && DecimalValue(s + [c]) == DecimalValue(s) * 10 + DigitValue(c)
  {
    assert (s + [c])[..|s|] == s;
  }

  /** A zero-padded field reads back as the number it was made from. */
  lemma {:induction false} PadDecimalValue(n: nat, width: nat)
    requires n < Pow10(width)
    ensures DecimalValue(PadDecimal(n, width)) == n
  {
    if width > 0 {
      PadDecimalValue(n / 10, width - 1);
      DecimalValueSnoc(PadDecimal(n / 10, width - 1), DigitChar(n % 10));
    }
  }

  /** Reading a digit field and padding it back to its width gives the field. */
  lemma {:induction false} DecimalValuePad(s: string)
    requires AllDigits(s)
    ensures PadDecimal(DecimalValue(s), |s|) == s
  {
    if s != [] {
      var p := s[..|s| - 1];
      DecimalValuePad(p);
      var d := DigitValue(s[|s| - 1]);
      var v := DecimalValue(p) * 10 + d;
      assert v / 10 == DecimalValue(p) && v % 10 == d;
      assert s == p + [s[|s| - 1]];
    }
  }

  /** `str(n)` for `n >= 0`: at least one digit, no leading zero. */
  function NatToDecimal(n: nat): (s: string)
    ensures |s| >= 1 && AllDigits(s)
    ensures s[0] == '0' ==> n == 0
  {
    if n < 10 then [DigitChar(n)] else NatToDecimal(n / 10) + [DigitChar(n % 10)]
  }

  /** `int(str(n)) == n`. */
  lemma {:induction false} NatToDecimalValue(n: nat)
    ensures DecimalValue(NatToDecimal(n)) == n
  {
    if n >= 10 {
      NatToDecimalValue(n / 10);
      DecimalValueSnoc(NatToDecimal(n / 10), DigitChar(n % 10));
    }
  }

  /** Different numbers print differently. */
  lemma NatToDecimalInjective(a: nat, b: nat)
    requires NatToDecimal(a) == NatToDecimal(b)
    ensures a == b
  {
    NatToDecimalValue(a);
    NatToDecimalValue(b);
  }

  /** Python's `str(i)` for any integer: a '-' sign appears exactly for
      negative numbers, and it is the first character. */
  function IntToDecimal(i: int): (s: string)
    ensures |s| >= 1
    ensures '-' in s <==> i < 0
    ensures i < 0 ==> s[0] == '-' && '-' !in s[1..]
  {
    if i < 0 then
      var d := NatToDecimal(-i);
      assert ['-'] + d == "-" + d && ("-" + d)[1..] == d;
      assert forall k :: 0 <= k < |d| ==> d[k] != '-';
      "-" + d
    else
      var d := NatToDecimal(i);
      assert forall k :: 0 <= k < |d| ==> d[k] != '-';
      d
  }

  // ---------------------------------------------------------------------
  // Splitting on '-' and joining with '-'

  /** Regrouping a concatenation. */
  lemma ConcatAssoc(x: string, y: string, z: string)
    ensures x + y + z == x + (y + z)
  {
  }

  /** `s.split('-')`: never empty, and no piece contains a '-'. */
  function Split(s: string): (parts: seq<string>)
    ensures |parts| >= 1
    ensures forall i :: 0 <= i < |parts| ==> '-' !in parts[i]
  {
    if s == [] then [[]]
    else
      var rest := Split(s[1..]);
      if s[0] == '-' then [[]] + rest
      else [[s[0]] + rest[0]] + rest[1..]
  }

  /** `'-'.join(parts)`. */
  function Join(parts: seq<string>): string
    requires |parts| >= 1
  {
    if |parts| == 1 then parts[0] else parts[0] + "-" + Join(parts[1..])
  }

  /** The number of '-' characters in `s`. */
  function DashCount(s: string): nat {
    if s == [] then 0 else (if s[0] == '-' then 1 else 0) + DashCount(s[1..])
  }

  /** Splitting gives one piece more than there are separators. */
  lemma {:induction false} SplitLength(s: string)
    ensures |Split(s)| == DashCount(s) + 1
  {
    if s != [] {
      SplitLength(s[1..]);
    }
  }

  /** Joining the pieces of a split gives back the string. */
  lemma {:induction false} JoinSplit(s: string)
    ensures Join(Split(s)) == s
  {
    if s != [] {
      var rest := Split(s[1..]);
      JoinSplit(s[1..]);
      if s[0] == '-' {
        assert Split(s) == [[]] + rest;
        assert (([[]] + rest)[1..]) == rest;
        assert s == "-" + s[1..];
      } else if |rest| == 1 {
        assert s == [s[0]] + s[1..];
      } else {
        var parts := Split(s);
        assert parts[1..] == rest[1..];
        assert Join(rest) == rest[0] + "-" + Join(rest[1..]);
        assert s == [s[0]] + s[1..];
      }
    }
  }

  /** A string without '-' splits into itself. */
  lemma {:induction false} SplitNoDash(s: string)
    requires '-' !in s
    ensures Split(s) == [s]
  {
    if s != [] {
      assert '-' !in s[1..] by {
        forall k | 0 <= k < |s| - 1 ensures s[1..][k] != '-' { assert s[1..][k] == s[k + 1]; }
      }
      SplitNoDash(s[1..]);
      assert [s[0]] + s[1..] == s;
    }
  }

  /** A dash-free head followed by '-' splits off as the first piece. */
  lemma {:induction false} SplitAtDash(a: string, b: string)
    requires '-' !in a
    ensures Split(a + "-" + b) == [a] + Split(b)
  {
    var s := a + "-" + b;
    if a == [] {
      assert s[0] == '-' && s[1..] == b;
    } else {
      assert '-' !in a[1..] by {
        forall k | 0 <= k < |a| - 1 ensures a[1..][k] != '-' { assert a[1..][k] == a[k + 1]; }
      }
      assert s[1..] == a[1..] + "-" + b;
      SplitAtDash(a[1..], b);
      assert [a[0]] + a[1..] == a;
    }
  }

  /** Three dash-free pieces joined by '-' split back into themselves. */
  lemma SplitThree(a: string, b: string, c: string)
    requires '-' !in a && '-' !in b && '-' !in c
    ensures Split(a + "-" + (b + "-" + c)) == [a, b, c]
  {
    SplitAtDash(a, b + "-" + c);
    SplitAtDash(b, c);
    SplitNoDash(c);
  }
}
