/**
 * The integer conversions the option parser makes with `sscanf`:
 * "%ld%c" for -maxmemory and -restart and "%d" for each -offset value.
 * A conversion succeeds on an optional sign followed by at least one decimal
 * digit; "%c" then picks up the character that follows the digits, if any.
 */
module Scan {
  import opened Wrappers

  /** The converted value and the character after it ("%c"), when there is one. */
  datatype Scanned = Scanned(value: int, next: Option<char>)

  predicate IsDigit(c: char)
  {
    '0' <= c <= '9'
  }

  predicate AllDigits(s: string)
  {
    forall i :: 0 <= i < |s| ==> IsDigit(s[i])
  }

  /** Length of the leading run of decimal digits. */
  function DigitRun(s: string): (n: nat)
    ensures n <= |s| && AllDigits(s[..n])
    ensures n < |s| ==> !IsDigit(s[n])
  {
    if s == [] || !IsDigit(s[0]) then 0
    else
      var n := 1 + DigitRun(s[1..]);
      assert forall i :: 1 <= i < n ==> s[..n][i] == s[1..][..n - 1][i - 1];
      n
  }

  /** The value of a string of decimal digits. */
  function Value(d: string): nat
    requires AllDigits(d)
  {
    if d == [] then 0 else 10 * Value(d[..|d| - 1]) + (d[|d| - 1] as int - '0' as int)
  }

  /** The digits of a conversion without its sign: the magnitude and what follows. */
  function ScanMagnitude(body: string): Option<Scanned>
  {
    var n := DigitRun(body);
    if n == 0 then None
    else Some(Scanned(Value(body[..n]), if n < |body| then Some(body[n]) else None))
  }

  /** The conversion: Some when sscanf's return value is at least 1. */
  function ScanInt(s: string): Option<Scanned>
  {
    if |s| > 0 && (s[0] == '-' || s[0] == '+') then
      match ScanMagnitude(s[1..])
      case None => None
      case Some(m) => Some(m.(value := if s[0] == '-' then -m.value else m.value))
    else ScanMagnitude(s)
  }

  /** Decimal digits of a natural number, most significant first. */
  function Digits(n: nat): (d: string)
    ensures d != [] && AllDigits(d)
  {
    var last := ((n % 10) + '0' as int) as char;
    if n < 10 then [last] else Digits(n / 10) + [last]
  }

  /** The decimal form of an integer, as `printf("%d")` writes it. */
  function Show(v: int): string
  {
    if v < 0 then "-" + Digits(-v) else Digits(v)
  }

  lemma {:induction false} ValueOfDigits(n: nat)
    ensures Value(Digits(n)) == n
  {
    var d := Digits(n);
    if n >= 10 {
      assert d[..|d| - 1] == Digits(n / 10);
      ValueOfDigits(n / 10);
    }
  }

  lemma {:induction false} DigitRunOfDigits(d: string, rest: string)
    requires d != [] && AllDigits(d)
    requires rest == [] || !IsDigit(rest[0])
    ensures DigitRun(d + rest) == |d|
    decreases |d|
  {
    var s := d + rest;
    assert s[0] == d[0];
    if |d| > 1 {
      assert s[1..] == d[1..] + rest;
      DigitRunOfDigits(d[1..], rest);
    } else {
      assert s[1..] == rest;
    }
  }

  lemma {:induction false} ScanDigits(n: nat, rest: string)
    requires rest == [] || !IsDigit(rest[0])
    ensures ScanMagnitude(Digits(n) + rest) ==
            Some(Scanned(n, if rest == [] then None else Some(rest[0])))
  {
    var d := Digits(n);
    DigitRunOfDigits(d, rest);
    ValueOfDigits(n);
    assert (d + rest)[..|d|] == d;
    assert rest != [] ==> (d + rest)[|d|] == rest[0];
  }

  /** A negative number's printed form, then a non-digit: the number. */
  lemma {:induction false} ScanNegative(v: int, rest: string)
    requires v < 0 && (rest == [] || !IsDigit(rest[0]))
    ensures ScanInt(Show(v) + rest) ==
            Some(Scanned(v, if rest == [] then None else Some(rest[0])))
  {
    var body := Digits(-v) + rest;
    ScanDigits(-v, rest);
    var s := "-" + body;
    assert Show(v) + rest == s;
    assert s[0] == '-' && s[1..] == body;
    assert ScanMagnitude(s[1..]) == Some(Scanned(-v, if rest == [] then None else Some(rest[0])));
  }

  /** A non-negative number's printed form, then a non-digit: the number. */
  lemma {:induction false} ScanNonNegative(v: int, rest: string)
    requires v >= 0 && (rest == [] || !IsDigit(rest[0]))
    ensures ScanInt(Show(v) + rest) ==
            Some(Scanned(v, if rest == [] then None else Some(rest[0])))
  {
    ScanDigits(v, rest);
    assert IsDigit((Digits(v) + rest)[0]);
  }

  /** Converting the printed form of a number, followed by anything that is not a digit, gives the number back. */
  lemma {:induction false} ScanShow(v: int, rest: string)
    requires rest == [] || !IsDigit(rest[0])
    ensures ScanInt(Show(v) + rest) ==
            Some(Scanned(v, if rest == [] then None else Some(rest[0])))
  {
    if v < 0 {
      ScanNegative(v, rest);
    } else {
      ScanNonNegative(v, rest);
    }
  }

  /** The printed form of a number on its own converts back to the number, with nothing after it. */
  lemma ScanShown(v: int)
    ensures ScanInt(Show(v)) == Some(Scanned(v, None))
  {
    ScanShow(v, "");
    assert Show(v) + "" == Show(v);
  }
}
