/** Decimal numbers as strconv prints and reads them. */
module Numbers {
  import opened Wrappers

  const MAX: int := 0x7fff_ffff_ffff_ffff

  /** The values of Go's 64-bit int. */
  predicate GoInt(n: int) { -MAX - 1 <= n <= MAX }

  predicate Digit(c: char) { '0' <= c <= '9' }

  predicate AllDigits(s: string) { forall i :: 0 <= i < |s| ==> Digit(s[i]) }

  function Value(c: char): int { c as int - '0' as int }

  function Decimal(s: string): int {
    if s == "" then 0 else Decimal(s[..|s| - 1]) * 10 + Value(s[|s| - 1])
  }

  /** strconv.Itoa of a number that is not negative. */
  function Itoa(n: nat): (s: string)
    ensures s != ""
  {
    (if n < 10 then "" else Itoa(n / 10)) + [('0' as int + n % 10) as char]
  }

  predicate Signed(s: string) { s != "" && (s[0] == '-' || s[0] == '+') }

  /** strconv.Atoi: an optional sign, at least one digit, nothing else, and in range. */
  function Atoi(s: string): Option<int> {
    var digits := if Signed(s) then s[1..] else s;
    if digits == "" || !AllDigits(digits) then None
    else
      var n := if Signed(s) && s[0] == '-' then -Decimal(digits) else Decimal(digits);
      if GoInt(n) then Some(n) else None
  }

  lemma {:induction false} ItoaDigits(n: nat)
    ensures AllDigits(Itoa(n)) && Decimal(Itoa(n)) == n
    decreases n
  {
    ItoaLast(n);
    if n >= 10 {
      ItoaDigits(n / 10);
      MoreDigits(Itoa(n / 10), n % 10);
    } else {
      MoreDigits("", n);
    }
  }

  function DigitOf(d: nat): (c: char)
    requires d < 10
    ensures Digit(c) && Value(c) == d
  {
    ('0' as int + d) as char
  }

  lemma ItoaLast(n: nat)
    ensures Itoa(n) == (if n < 10 then "" else Itoa(n / 10)) + [DigitOf(n % 10)]
  {
  }

  lemma MoreDigits(s: string, d: nat)
    requires d < 10 && AllDigits(s)
    ensures AllDigits(s + [DigitOf(d)]) && Decimal(s + [DigitOf(d)]) == Decimal(s) * 10 + d
  {
    assert (s + [DigitOf(d)])[..|s|] == s;
  }

  /** What is printed is read back. */
  lemma AtoiOfItoa(n: nat)
    requires n <= MAX
    ensures Atoi(Itoa(n)) == Some(n)
  {
    ItoaDigits(n);
    assert Digit(Itoa(n)[0]);
  }

  lemma OneDigitMore(s: string, i: nat)
    requires i < |s| && AllDigits(s[..i]) && Digit(s[i])
    ensures AllDigits(s[..i + 1]) && Decimal(s[..i + 1]) == Decimal(s[..i]) * 10 + Value(s[i])
  {
    assert s[..i + 1][..i] == s[..i];
  }

  /** What is read as a number: digits with at most one sign in front of them, if the value fits 64
      bits; anything else is not. */
  lemma AtoiIs(sign: string, digits: string)
    requires sign in {"", "+", "-"} && digits != "" && forall i :: 0 <= i < |digits| ==> '0' <= digits[i] <= '9'
    ensures var n := if sign == "-" then -Decimal(digits) else Decimal(digits);
      Atoi(sign + digits) ==
        if -9_223_372_036_854_775_808 <= n <= 9_223_372_036_854_775_807 then Some(n) else None
  {
    hide Decimal;
    assert AllDigits(digits) && !Signed(digits);
    hide AllDigits, Digit;
    if sign == "" {
      assert sign + digits == digits;
    } else {
      SignFirst(sign, digits);
    }
  }

  lemma SignFirst(sign: string, digits: string)
    requires |sign| == 1
    ensures (sign + digits)[0] == sign[0] && (sign + digits)[1..] == digits
  {
  }

  lemma AtoiRejects(s: string)
    ensures var t := if s != "" && s[0] in {'+', '-'} then s[1..] else s;
      t == "" || (exists i :: 0 <= i < |t| && !('0' <= t[i] <= '9')) ==> Atoi(s).None?
  {
  }
}
