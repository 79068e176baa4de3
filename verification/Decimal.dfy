/** Decimal integers as text: the printing and parsing of 64-bit integers. */
module Decimal {
  import opened Common

  const MIN_INT := -0x8000_0000_0000_0000
  const MAX_INT := 0x7FFF_FFFF_FFFF_FFFF

  predicate IsDigit(c: char) { '0' <= c <= '9' }

  function Digit(d: nat): (c: char)
    requires d < 10
    ensures IsDigit(c) && c as int - '0' as int == d
  {
    (d + '0' as int) as char
  }

  function Digits(n: nat): string {
    if n < 10 then [Digit(n)] else Digits(n / 10) + [Digit(n % 10)]
  }

  /** The shortest decimal text of an integer. */
  function Itoa(n: int): string {
    if n < 0 then "-" + Digits(-n) else Digits(n)
  }

  /** The value of a non-empty run of digits. */
  function Value(s: string): Option<nat> {
    if s == [] || !IsDigit(s[|s| - 1]) then None
    else
      var d := s[|s| - 1] as int - '0' as int;
      if |s| == 1 then Some(d)
      else
        var high := Value(s[..|s| - 1]);
        if high.None? then None else Some(high.value * 10 + d)
  }

  /** An optional sign and digits, within the 64-bit range; anything else is an error. */
  function Atoi(s: string): Option<int> {
    var signed := s != [] && (s[0] == '-' || s[0] == '+');
    var v := Value(if signed then s[1..] else s);
    if v.None? then None
    else
      var n: int := if signed && s[0] == '-' then -(v.value as int) else v.value;
      if MIN_INT <= n <= MAX_INT then Some(n) else None
  }

  lemma {:induction false} ValueOfDigits(n: nat)
    ensures Value(Digits(n)) == Some(n)
    ensures Digits(n) != [] && forall i | 0 <= i < |Digits(n)| :: IsDigit(Digits(n)[i])
  {
    if n >= 10 {
      ValueOfDigits(n / 10);
      var s := Digits(n);
      assert s[..|s| - 1] == Digits(n / 10);
    }
  }

  /** Printing and parsing undo each other on the whole 64-bit range. */
  lemma AtoiItoa(n: int)
    requires MIN_INT <= n <= MAX_INT
    ensures Atoi(Itoa(n)) == Some(n)
  {
    ValueOfDigits(if n < 0 then -n else n);
    if n < 0 {
      assert Itoa(n)[0] == '-' && Itoa(n)[1..] == Digits(-n);
    } else {
      assert IsDigit(Itoa(n)[0]);
    }
  }

  /** Exactly the non-empty runs of digits have a value, and leading zeros do not change it. */
  lemma {:induction false} ValueIff(s: string)
    ensures Value(s).Some? <==> s != [] && forall i | 0 <= i < |s| :: IsDigit(s[i])
    ensures Value(s).Some? ==> Value("0" + s) == Value(s)
    decreases |s|
  {
    if s != [] && IsDigit(s[|s| - 1]) {
      var init := s[..|s| - 1];
      ValueIff(init);
      assert ("0" + s)[..|s|] == "0" + init && ("0" + s)[|s|] == s[|s| - 1];
      assert "0" + [] == "0";
      assert forall i | 0 <= i < |init| :: init[i] == s[i];
    }
  }

  /** A plus sign is allowed and a minus sign negates. */
  lemma {:induction false} AtoiSigned(s: string)
    requires Value(s).Some? && Value(s).value <= MAX_INT
    ensures Atoi(s) == Some(Value(s).value as int)
    ensures Atoi("+" + s) == Some(Value(s).value as int) && Atoi("-" + s) == Some(-(Value(s).value as int))
  {
    ValueIff(s);
    assert IsDigit(s[0]);
    AfterSign('+', s);
    AfterSign('-', s);
  }

  lemma AfterSign(c: char, s: string)
    ensures ([c] + s)[0] == c && ([c] + s)[1..] == s
  {
  }
}
