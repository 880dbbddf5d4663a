/** Number printing and parsing as the Qt string classes do it. */
module Text {

  datatype Option<+T> = None | Some(value: T)

  const INT_MAX: int := 0x7fff_ffff
  const INT_MIN: int := -0x8000_0000
  const UINT_MAX: int := 0xffff_ffff

  predicate IsDigit(c: char) { '0' <= c <= '9' }

  predicate AllDigits(s: string) { forall i :: 0 <= i < |s| ==> IsDigit(s[i]) }

  /** `UString::isNumber`: non-empty and nothing but decimal digits. */
  predicate IsNumber(s: string) { s != "" && AllDigits(s) }

  function DigitChar(d: nat): (c: char)
    requires d < 10
    ensures IsDigit(c) && c as int - '0' as int == d
  {
    '0' + d as char
  }

  function NatToString(n: nat): (s: string)
    ensures IsNumber(s)
  {
    if n < 10 then [DigitChar(n)] else NatToString(n / 10) + [DigitChar(n % 10)]
  }

  function IntToString(i: int): string {
    if i < 0 then "-" + NatToString(-i) else NatToString(i)
  }

  function DigitsValue(s: string): nat
    requires AllDigits(s)
  {
    if s == "" then 0
    else 10 * DigitsValue(s[..|s| - 1]) + (s[|s| - 1] as int - '0' as int)
  }

  /** The magnitude and sign Qt reads, or None when the text is not a number. */
  function ReadInteger(s: string): Option<int> {
    if IsNumber(s) then Some(DigitsValue(s))
    else if s != "" && s[0] == '-' && IsNumber(s[1..]) then Some(-(DigitsValue(s[1..]) as int))
    else if s != "" && s[0] == '+' && IsNumber(s[1..]) then Some(DigitsValue(s[1..]))
    else None
  }

  /** `toInt()`: zero for text that is no number and for values outside 32 bits. */
  function ToInt(s: string): (i: int)
    ensures INT_MIN <= i <= INT_MAX
  {
    match ReadInteger(s)
    case Some(v) => if INT_MIN <= v <= INT_MAX then v else 0
    case None => 0
  }

  /** `toUInt()`: like `toInt()` but a negative number is no number either. */
  function ToUInt(s: string): (i: int)
    ensures 0 <= i <= UINT_MAX
  {
    match ReadInteger(s)
    case Some(v) => if 0 <= v <= UINT_MAX then v else 0
    case None => 0
  }

  lemma {:induction false} DigitsRoundTrip(n: nat)
    ensures DigitsValue(NatToString(n)) == n
  {
    if n >= 10 {
      DigitsRoundTrip(n / 10);
      var s := NatToString(n);
      assert s[..|s| - 1] == NatToString(n / 10);
    }
  }

  lemma ReadPrinted(i: int)
    ensures ReadInteger(IntToString(i)) == Some(i)
  {
    if i < 0 {
      DigitsRoundTrip(-i);
      assert IntToString(i)[1..] == NatToString(-i);
      assert !IsDigit(IntToString(i)[0]);
    } else {
      DigitsRoundTrip(i);
    }
  }

  lemma IntRoundTrip(i: int)
    requires INT_MIN <= i <= INT_MAX
    ensures ToInt(IntToString(i)) == i
  {
    ReadPrinted(i);
  }
}
