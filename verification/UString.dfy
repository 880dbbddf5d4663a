/** The byte-string helpers the program and its Qt types share: letter case, quoting, hexadecimal. */
module UStrings {

  type Byte = n: int | 0 <= n < 256

  // ---- letter case, over ASCII ----

  function LowerChar(c: char): char {
    if 'A' <= c <= 'Z' then (c as int + 32) as char else c
  }

  function UpperChar(c: char): char {
    if 'a' <= c <= 'z' then (c as int - 32) as char else c
  }

  function Lower(s: string): string {
    seq(|s|, i requires 0 <= i < |s| => LowerChar(s[i]))
  }

  function Upper(s: string): string {
    seq(|s|, i requires 0 <= i < |s| => UpperChar(s[i]))
  }

  lemma UpperTwice(s: string)
    ensures Upper(Upper(s)) == Upper(s)
  {
    assert forall i | 0 <= i < |s| :: Upper(Upper(s))[i] == Upper(s)[i];
  }

  // ---- quoting ----

  predicate Space(c: char) { c in " \t\n\r" || c as int == 11 || c as int == 12 }

  function TrimLeft(s: string): string {
    if s != "" && Space(s[0]) then TrimLeft(s[1..]) else s
  }

  function TrimRight(s: string): string {
    if s != "" && Space(s[|s| - 1]) then TrimRight(s[..|s| - 1]) else s
  }

  function Trimmed(s: string): string { TrimRight(TrimLeft(s)) }

  /** `mid(1, length - 2)`; a negative length means the rest of the text. */
  function Inner(s: string): string
    requires s != ""
  {
    if |s| == 1 then "" else s[1..|s| - 1]
  }

  predicate IsQuoted(s: string, q1: char, q2: char) {
    s != "" && s[0] == q1 && s[|s| - 1] == q2
  }

  function Unquote(s: string, q1: char, q2: char): string {
    if IsQuoted(s, q1, q2) then Inner(s) else Trimmed(s)
  }

  function Quote(s: string): string { "\"" + s + "\"" }

  function Unquoted(s: string): string { Unquote(s, '"', '"') }

  lemma UnquoteQuote(s: string)
    ensures Unquoted(Quote(s)) == s
  {
    assert Quote(s)[1..|Quote(s)| - 1] == s;
  }

  // ---- hexadecimal ----

  function Digit(n: nat): (c: char)
    requires n < 16
    ensures LowerChar(c) == c
    ensures c as int == if n < 10 then '0' as int + n else 'a' as int + n - 10
  {
    "0123456789abcdef"[n]
  }

  lemma DigitInjective(a: nat, b: nat)
    requires a < 16 && b < 16 && Digit(a) == Digit(b)
    ensures a == b
  {
  }

  function Hex(bytes: seq<Byte>): string {
    if bytes == [] then "" else [Digit(bytes[0] / 16), Digit(bytes[0] % 16)] + Hex(bytes[1..])
  }

  lemma LowerOfBoth(a: string, b: string)
    ensures Lower(a + b) == Lower(a) + Lower(b)
  {
    hide LowerChar;
  }

  lemma DigitsAreLower(a: nat, b: nat)
    requires a < 16 && b < 16
    ensures Lower([Digit(a), Digit(b)]) == [Digit(a), Digit(b)]
  {
    hide Digit, LowerChar;
  }

  lemma {:induction false} HexIsLower(bytes: seq<Byte>)
    ensures Lower(Hex(bytes)) == Hex(bytes)
  {
    if bytes != [] {
      hide Lower, Digit;
      HexIsLower(bytes[1..]);
      DigitsAreLower(bytes[0] / 16, bytes[0] % 16);
      LowerOfBoth([Digit(bytes[0] / 16), Digit(bytes[0] % 16)], Hex(bytes[1..]));
    }
  }

  lemma {:induction false} HexInjective(a: seq<Byte>, b: seq<Byte>)
    requires Hex(a) == Hex(b)
    ensures a == b
  {
    if a != [] && b != [] {
      var x, y := Hex(a), Hex(b);
      assert x[0] == y[0] && x[1] == y[1] && x[2..] == y[2..];
      DigitInjective(a[0] / 16, b[0] / 16);
      DigitInjective(a[0] % 16, b[0] % 16);
      HexInjective(a[1..], b[1..]);
      assert a == [a[0]] + a[1..] && b == [b[0]] + b[1..];
    }
  }
}
