/** Signed 64-bit integers printed in decimal, and parsed back. */
module Decimals {
  import opened Int64
  import opened Options

  predicate IsDigit(c: char) {
    '0' <= c <= '9'
  }

  predicate AllDigits(s: string) {
    forall c :: c in s ==> IsDigit(c)
  }

  function Digit(d: nat): (c: char)
    requires d < 10
    ensures IsDigit(c)
  {
    '0' + d as char
  }

  function PrintNat(n: nat): (s: string)
    ensures s != [] && AllDigits(s)
  {
    if n < 10 then [Digit(n)] else PrintNat(n / 10) + [Digit(n % 10)]
  }

  function Print(n: int): string {
    if n < 0 then "-" + PrintNat(-n) else PrintNat(n)
  }

  function Value(s: string): nat
    requires AllDigits(s)
  {
    if s == [] then 0
    else
      var n := |s| - 1;
      assert s[n] in s && forall c :: c in s[..n] ==> c in s;
      10 * Value(s[..n]) + (s[n] - '0') as nat
  }

  /** An optional sign and at least one digit; a value out of range is an error. */
  function Parse(s: string): Option<int> {
    var digits := if s != [] && (s[0] == '-' || s[0] == '+') then s[1..] else s;
    if digits == [] || !AllDigits(digits) then None
    else
      var v: int := Value(digits);
      var n := if s[0] == '-' then -v else v;
      if IsI64(n) then Some(n) else None
  }

  lemma {:induction false} ValueOfPrint(n: nat)
    ensures Value(PrintNat(n)) == n
  {
    if n >= 10 {
      ValueOfPrint(n / 10);
      assert PrintNat(n)[..|PrintNat(n)| - 1] == PrintNat(n / 10);
    } else {
      assert Value([]) == 0;
      assert PrintNat(n)[..0] == [];
    }
  }

  /** The usual decimal notation: the last digit is the remainder by ten, what comes before
      it the quotient, and a negative number has a minus in front. */
  lemma PrintDigits(n: int)
    ensures n < 0 ==> Print(n) == "-" + Print(-n)
    ensures 0 <= n <= 9 ==> |Print(n)| == 1 && Print(n)[0] as int == '0' as int + n
    ensures 10 <= n ==> var i := |Print(n)| - 1;
                        Print(n)[..i] == Print(n / 10) && Print(n)[i] as int == '0' as int + n % 10
  {
  }

  /** What is no number: nothing, a sign alone, anything but digits after the first
      character, and what 64 bits cannot hold. */
  lemma ParseRefuses(s: string)
    ensures s in {"", "-", "+"} ==> Parse(s) == None
    ensures (exists i :: 0 < i < |s| && !('0' <= s[i] <= '9')) ==> Parse(s) == None
    ensures Parse(s).Some? ==> -0x8000_0000_0000_0000 <= Parse(s).value < 0x8000_0000_0000_0000
  {
    if i :| 0 < i < |s| && !('0' <= s[i] <= '9') {
      assert s[i] in s && s[1..][i - 1] in s[1..];
    }
  }

  lemma ParseNegative(n: int)
    requires IsI64(n) && n < 0
    ensures Parse(Print(n)) == Some(n)
  {
    ValueOfPrint(-n);
    assert Print(n)[1..] == PrintNat(-n);
  }

  lemma ParseNat(n: nat)
    requires IsI64(n)
    ensures Parse(Print(n)) == Some(n)
  {
    ValueOfPrint(n);
    assert PrintNat(n)[0] in PrintNat(n);
  }

  /** What is printed parses back to the same number. */
  lemma ParsePrint(n: int)
    requires IsI64(n)
    ensures Parse(Print(n)) == Some(n)
  {
    if n < 0 {
      ParseNegative(n);
    } else {
      ParseNat(n);
    }
  }

  lemma PrintInjective(m: int, n: int)
    requires IsI64(m) && IsI64(n)
    ensures Print(m) == Print(n) <==> m == n
  {
    ParsePrint(m);
    ParsePrint(n);
  }

  /** A printed number holds nothing but digits and a sign. */
  lemma PrintChars(n: int)
    ensures forall c :: c in Print(n) ==> IsDigit(c) || c == '-'
  {
  }
}
