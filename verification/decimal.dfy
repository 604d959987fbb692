/**
 Decimal integer text, as Go's `strconv.Atoi` reads it and the `%d` verb of
 `fmt.Sprintf` writes it. Relay pins travel through the accessory serial
 number as such text, so the round trip between the two matters.
 */
module Decimal {
  import opened Wrappers

  /** Bounds of Go's `int` on the 64-bit targets the agent runs on. */
  const MinInt: int := -0x8000_0000_0000_0000
  const MaxInt: int := 0x7fff_ffff_ffff_ffff

  type Int64 = x: int | MinInt <= x <= MaxInt

  predicate IsDigit(c: char) { '0' <= c <= '9' }

  predicate IsSign(c: char) { c == '+' || c == '-' }

  predicate AllDigits(s: string) {
    forall i | 0 <= i < |s| :: IsDigit(s[i])
  }

  function DigitValue(c: char): (d: nat)
    requires IsDigit(c)
    ensures d < 10
  {
    c as int - '0' as int
  }

  function DigitChar(d: nat): (c: char)
    requires d < 10
    ensures IsDigit(c) && DigitValue(c) == d
  {
    ('0' as int + d) as char
  }

  /** Value of a digit string accumulated left to right, `n = n*10 + digit`. */
  function DigitsValue(s: string): nat
    requires AllDigits(s)
    decreases |s|
  {
    if |s| == 0 then 0 else DigitsValue(s[..|s| - 1]) * 10 + DigitValue(s[|s| - 1])
  }

  /** Shortest decimal digits of a natural number; reading them back gives the number. */
  function NatDigits(n: nat): (s: string)
    ensures |s| > 0 && AllDigits(s)
    ensures DigitsValue(s) == n
    ensures s[0] == '0' ==> n == 0
    decreases n
  {
    if n < 10 then [DigitChar(n)]
    else
      var s := NatDigits(n / 10) + [DigitChar(n % 10)];
      assert s[..|s| - 1] == NatDigits(n / 10);
      s
  }

  /**
   An optional sign followed by one or more decimal digits, with its value
   (unbounded). Anything else, the empty text and a bare sign included, is
   rejected.
   */
  function ParseSigned(s: string): (r: Option<int>)
    ensures |s| == 0 ==> r.None?
    ensures |s| == 1 && IsSign(s[0]) ==> r.None?
    ensures (exists i | 0 <= i < |s| :: !IsDigit(s[i]) && (i > 0 || !IsSign(s[i]))) ==> r.None?
  {
    if |s| == 0 then None
    else if IsSign(s[0]) then
      if |s| > 1 && AllDigits(s[1..]) then
        Some(if s[0] == '-' then -(DigitsValue(s[1..]) as int) else DigitsValue(s[1..]))
      else None
    else if AllDigits(s) then Some(DigitsValue(s))
    else None
  }

  /** `fmt.Sprintf("%d", n)`: a minus sign for negatives, then the digits of the magnitude. */
  function Format(n: int): (s: string)
    ensures ParseSigned(s) == Some(n)
  {
    if n < 0 then
      var s := "-" + NatDigits(-n);
      assert s[1..] == NatDigits(-n);
      s
    else NatDigits(n)
  }

  /** `strconv.Atoi`: the text must be a signed decimal numeral whose value fits a Go `int`. */
  function Atoi(s: string): (r: Option<Int64>)
    ensures r.Some? ==> ParseSigned(s) == Some(r.value as int)
    ensures ParseSigned(s).Some? && MinInt <= ParseSigned(s).value <= MaxInt ==> r.Some?
  {
    match ParseSigned(s)
    case Some(v) => if MinInt <= v <= MaxInt then Some(v) else None
    case None => None
  }

  /** Every Go `int` printed with `%d` is read back by `Atoi` as itself. */
  lemma AtoiFormat(n: Int64)
    ensures Atoi(Format(n)) == Some(n)
  {
  }
}
