/** Decimal printing and scanning of integers, as strconv.FormatInt, "%d" and Sscanf("%d") do it. */
module Decimal {
  import opened Prelude

  predicate IsDigit(c: char) {
    '0' <= c <= '9'
  }

  function Digit(d: nat): (c: char)
    requires d < 10
    ensures IsDigit(c)
  {
    '0' + d as char
  }

  function Itoa(n: nat): (s: string)
    ensures s != [] && AllDigits(s)
  {
    if n < 10 then [Digit(n)] else Itoa(n / 10) + [Digit(n % 10)]
  }

  function FormatInt(i: int): string {
    if i < 0 then "-" + Itoa(-i) else Itoa(i)
  }

  predicate AllDigits(s: string) {
    forall i :: 0 <= i < |s| ==> IsDigit(s[i])
  }

  function Value(s: string): nat
    requires AllDigits(s)
  {
    if s == [] then 0 else Value(s[..|s| - 1]) * 10 + (s[|s| - 1] - '0') as nat
  }

  /** The longest run of digits at the front. */
  function LeadingDigits(s: string): (d: string)
    ensures AllDigits(d)
  {
    if s == [] || !IsDigit(s[0]) then [] else [s[0]] + LeadingDigits(s[1..])
  }

  /** At least one digit; what follows is ignored. */
  function ScanUnsigned(s: string): Option<int> {
    var digits := LeadingDigits(s);
    if digits == [] then None else
    var v: int := Value(digits);
    Some(v)
  }

  function Negated(v: Option<int>): Option<int> {
    match v
    case None => None
    case Some(n) => Some(-n)
  }

  /** White space that Sscanf skips; a newline is not skipped. */
  predicate IsBlank(c: char) {
    c == ' ' || c == '\t' || c == '\r' || c == '\U{000B}' || c == '\U{000C}'
  }

  function SkipBlanks(s: string): string {
    if s != [] && IsBlank(s[0]) then SkipBlanks(s[1..]) else s
  }

  /** White space, an optional sign and an unsigned number. */
  function ScanInt(s: string): Option<int> {
    ScanSigned(SkipBlanks(s))
  }

  function ScanSigned(s: string): Option<int> {
    if s != [] && s[0] == '-' then Negated(ScanUnsigned(s[1..])) else
    if s != [] && s[0] == '+' then ScanUnsigned(s[1..]) else
    ScanUnsigned(s)
  }

  lemma {:induction false} ValueOfItoa(n: nat)
    ensures Value(Itoa(n)) == n
  {
    if n >= 10 {
      ValueOfItoa(n / 10);
      var s := Itoa(n);
      assert s[..|s| - 1] == Itoa(n / 10);
      assert s[|s| - 1] == Digit(n % 10);
    }
  }

  lemma {:induction false} LeadingDigitsAll(s: string)
    requires AllDigits(s)
    ensures LeadingDigits(s) == s
  {
    if s != [] {
      LeadingDigitsAll(s[1..]);
    }
  }

  /** What is printed is read back. */
  lemma ScanFormat(i: int)
    ensures ScanInt(FormatInt(i)) == Some(i)
  {
    hide Itoa, ScanUnsigned;
    ScanItoa(if i < 0 then -i else i);
    if i < 0 {
      ScanMinus(Itoa(-i));
    } else {
      ScanPlain(Itoa(i));
    }
  }

  lemma ScanItoa(n: nat)
    ensures ScanUnsigned(Itoa(n)) == Some(n as int)
  {
    ValueOfItoa(n);
    LeadingDigitsAll(Itoa(n));
    hide Itoa, LeadingDigits, Value;
  }

  lemma ScanPlain(d: string)
    requires d != [] && AllDigits(d)
    ensures ScanInt(d) == ScanUnsigned(d)
  {
    hide ScanUnsigned;
    assert !IsBlank(d[0]);
    assert IsDigit(d[0]);
  }

  lemma ScanMinus(d: string)
    ensures ScanInt("-" + d) == Negated(ScanUnsigned(d))
  {
    hide ScanUnsigned;
    assert ("-" + d)[1..] == d && !IsBlank(("-" + d)[0]);
  }

  lemma FormatAvoids(i: int, c: char)
    requires !IsDigit(c) && c != '-'
    ensures c !in FormatInt(i)
  {
  }
}
