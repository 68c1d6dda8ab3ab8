/** Decimal text: how numbers print, and how a 64-bit number is parsed. */
module Text {
  import opened Basics

  function DigitChar(d: nat): char
    requires d < 10
  {
    ('0' as int + d) as char
  }

  function ShowNat(n: nat): string {
    if n < 10 then [DigitChar(n)] else ShowNat(n / 10) + [DigitChar(n % 10)]
  }

  function ShowInt(i: int): string {
    if i < 0 then "-" + ShowNat(-i) else ShowNat(i)
  }

  predicate AllDigits(s: string) { forall k :: 0 <= k < |s| ==> '0' <= s[k] <= '9' }

  function Value(s: string): nat
    requires AllDigits(s)
  {
    if s == [] then 0 else Value(s[..|s| - 1]) * 10 + (s[|s| - 1] as int - '0' as int)
  }

  const MIN_I64: int := -0x8000_0000_0000_0000
  const MAX_I64: int := 0x7FFF_FFFF_FFFF_FFFF

  /** An optional sign and at least one digit, within range. */
  function ParseI64(s: string): Option<int> {
    var signed := s != [] && (s[0] == '-' || s[0] == '+');
    var digits := if signed then s[1..] else s;
    if digits == [] || !AllDigits(digits) then None
    else
      var n: int := if signed && s[0] == '-' then 0 - Value(digits) else Value(digits);
      if MIN_I64 <= n <= MAX_I64 then Some(n) else None
  }

  lemma {:induction false} ShowNatIsDigits(n: nat)
    ensures ShowNat(n) != [] && AllDigits(ShowNat(n)) && Value(ShowNat(n)) == n
  {
    if n >= 10 {
      ShowNatIsDigits(n / 10);
      var s := ShowNat(n);
      assert s[..|s| - 1] == ShowNat(n / 10);
    } else {
      assert ShowNat(n)[..0] == [];
    }
  }

  /** No number is printed with a leading zero. */
  lemma {:induction false} NoLeadingZero(n: nat)
    ensures ShowNat(n) != [] && (n > 0 ==> ShowNat(n)[0] != '0') && ShowNat(0) == "0"
  {
    if n >= 10 { NoLeadingZero(n / 10); }
  }

  lemma SignIsNotADigit(i: int)
    ensures i < 0 ==> ShowInt(i)[0] == '-' && ShowInt(i)[1..] == ShowNat(-i)
    ensures i >= 0 ==> ShowInt(i) == ShowNat(i) && '0' <= ShowInt(i)[0] <= '9'
  {
    ShowNatIsDigits(if i < 0 then -i else i);
  }

  /** Printing then parsing gives every 64-bit number back. */
  lemma ParseOfShow(i: int)
    requires MIN_I64 <= i <= MAX_I64
    ensures ParseI64(ShowInt(i)) == Some(i)
  {
    if i < 0 {
      ShowNatIsDigits(-i);
      ReadsNegative(ShowNat(-i));
    } else {
      ShowNatIsDigits(i);
      ReadsPlain(ShowNat(i));
    }
  }

  lemma ReadsPlain(digits: string)
    requires digits != [] && AllDigits(digits)
    ensures ParseI64(digits) == if Value(digits) <= MAX_I64 then Some(Value(digits)) else None
  {
    assert '0' <= digits[0] <= '9';
  }

  lemma ReadsNegative(digits: string)
    requires digits != [] && AllDigits(digits)
    ensures ParseI64("-" + digits) == if MIN_I64 <= 0 - Value(digits) then Some(0 - Value(digits)) else None
  {
    assert ("-" + digits)[0] == '-' && ("-" + digits)[1..] == digits;
  }

  /** The text is the digits, alone or behind one sign, and says the number. */
  predicate Writes(s: string, digits: string, n: int) {
    && digits != "" && AllDigits(digits)
    && ((s == digits && n == Value(digits)) || (s == "+" + digits && n == Value(digits))
        || (s == "-" + digits && n == 0 - Value(digits)))
  }

  /** What is read: digits, alone or behind one sign, if the number fits. */
  lemma ParseI64Exactly(s: string, n: int)
    ensures ParseI64(s) == Some(n) <==>
      -9_223_372_036_854_775_808 <= n <= 9_223_372_036_854_775_807 && exists digits :: Writes(s, digits, n)
  {
    if ParseI64(s) == Some(n) { ParsedIsWritten(s, n); }
    if digits :| Writes(s, digits, n) { WrittenIsParsed(s, digits, n); }
  }

  lemma ParsedIsWritten(s: string, n: int)
    requires ParseI64(s) == Some(n)
    ensures Writes(s, if s[0] == '-' || s[0] == '+' then s[1..] else s, n)
  {
    assert s == [s[0]] + s[1..];
  }

  lemma WrittenIsParsed(s: string, digits: string, n: int)
    requires Writes(s, digits, n)
    ensures ParseI64(s) == if MIN_I64 <= n <= MAX_I64 then Some(n) else None
  {
    assert '0' <= digits[0] <= '9';
    if s != digits { assert s[1..] == digits; }
  }

  lemma ShowIntIsInjective(i: int, j: int)
    requires ShowInt(i) == ShowInt(j)
    ensures i == j
  {
    SignIsNotADigit(i);
    SignIsNotADigit(j);
    ShowNatIsDigits(if i < 0 then -i else i);
    ShowNatIsDigits(if j < 0 then -j else j);
  }

  lemma ShowIntAlphabet(i: int)
    ensures ShowInt(i) != []
    ensures forall k :: 0 <= k < |ShowInt(i)| ==> ShowInt(i)[k] == '-' || '0' <= ShowInt(i)[k] <= '9'
  {
    ShowNatIsDigits(if i < 0 then -i else i);
  }

  /** Two texts that end in a separator character and a part free of it agree
      part by part when they are equal. */
  lemma SplitAtLast(a: string, x: string, b: string, y: string, sep: char)
    requires a + [sep] + x == b + [sep] + y && sep !in x && sep !in y
    ensures a == b && x == y
  {
    var s := a + [sep] + x;
    assert s[|a|] == sep && s == b + [sep] + y && s[|b|] == sep;
    assert forall k :: |a| < k < |s| ==> s[k] == x[k - |a| - 1];
    assert forall k :: |b| < k < |s| ==> s[k] == y[k - |b| - 1];
    assert a == s[..|a|] && b == s[..|b|];
    assert x == s[|a| + 1..] && y == s[|b| + 1..];
  }
}
