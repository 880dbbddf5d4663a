/** Escaping the characters a URI keeps for itself, and reading them back. */
module Escape {
  import opened UStrings

  const NUL: char := 0 as char

  function Escaped(c: char): string {
    match c
    case ' ' => "%20"
    case '&' => "%26"
    case '<' => "%3c"
    case '>' => "%3e"
    case '@' => "%40"
    case '%' => "%25"
    case ':' => "%3a"
    case _ => [c]
  }

  function EscapedAll(s: string): string {
    if s == "" then "" else EscapedAll(s[..|s| - 1]) + Escaped(s[|s| - 1])
  }

  /** Qt's reading of two characters that are not both hexadecimal digits is left open. */
  type Reading = (char, char) -> char

  function HexValue(c: char): (v: int)
    ensures -1 <= v < 16
  {
    if '0' <= c <= '9' then c as int - '0' as int
    else if 'a' <= c <= 'f' then c as int - 'a' as int + 10
    else if 'A' <= c <= 'F' then c as int - 'A' as int + 10
    else -1
  }

  function Pair(a: char, b: char, other: Reading): char {
    if HexValue(a) >= 0 && HexValue(b) >= 0 then (16 * HexValue(a) + HexValue(b)) as char else other(a, b)
  }

  /** Reading ends at a NUL, and at a '%' with fewer than two characters after it. */
  function Unescaped(s: string, other: Reading): string {
    if s == "" || s[0] == NUL then ""
    else if s[0] != '%' then [s[0]] + Unescaped(s[1..], other)
    else if |s| < 2 || s[1] == NUL || |s| < 3 || s[2] == NUL then ""
    else [Pair(s[1], s[2], other)] + Unescaped(s[3..], other)
  }

  /** Seven characters are escaped, each as '%' and the two lower-case hexadecimal digits of its code. */
  lemma EscapedIs(c: char)
    ensures if c in " &<>@%:" then c as int < 256 && Escaped(c) == ['%'] + Hex([c as int]) else Escaped(c) == [c]
  {
    if c in " &<>@%:" {
      assert [c as int][1..] == [];
      assert Hex([c as int]) == [Digit(c as int / 16), Digit(c as int % 16)] + Hex([]);
    }
  }

  /** Digits of either letter case read as the byte they print. */
  lemma PairReads(n: Byte, other: Reading)
    ensures Pair(Digit(n / 16), Digit(n % 16), other) == n as char
    ensures Pair(UpperChar(Digit(n / 16)), UpperChar(Digit(n % 16)), other) == n as char
  {
    DigitReads(n / 16);
    DigitReads(n % 16);
  }

  lemma DigitReads(n: nat)
    requires n < 16
    ensures HexValue(Digit(n)) == HexValue(UpperChar(Digit(n))) == n
  {
    hide Digit;
  }

  method EscapeText(s: string) returns (result: string)
    ensures result == EscapedAll(s)
  {
    hide Escaped;
    result := "";
    for pos := 0 to |s|
      invariant result == EscapedAll(s[..pos])
    {
      assert s[..pos + 1][..pos] == s[..pos];
      result := result + Escaped(s[pos]);
    }
    assert s[..|s|] == s;
  }

  // What the cursor finds at its place in the text.

  lemma ReadsPlain(s: string, k: nat, other: Reading)
    requires k < |s| && s[k] != NUL && s[k] != '%'
    ensures Unescaped(s[k..], other) == [s[k]] + Unescaped(s[k + 1..], other)
  {
    assert s[k..][1..] == s[k + 1..];
  }

  lemma ReadsEnd(s: string, k: nat, other: Reading)
    requires k <= |s|
    requires k == |s| || s[k] == NUL
             || (s[k] == '%' && (k + 1 == |s| || s[k + 1] == NUL || k + 2 == |s| || s[k + 2] == NUL))
    ensures Unescaped(s[k..], other) == ""
  {
  }

  lemma ReadsPair(s: string, k: nat, other: Reading)
    requires k + 2 < |s| && s[k] == '%' && s[k + 1] != NUL && s[k + 2] != NUL
    ensures Unescaped(s[k..], other) == [Pair(s[k + 1], s[k + 2], other)] + Unescaped(s[k + 3..], other)
  {
    assert s[k..][3..] == s[k + 3..];
  }

  /** A cursor over text that ends at its first NUL, as a C string does. */
  method UnescapeText(s: string, other: Reading) returns (result: string)
    ensures result == Unescaped(s, other)
  {
    hide Pair, Unescaped;
    result := "";
    var cp := 0;
    assert s[0..] == s;
    while cp < |s| && s[cp] != NUL
      invariant cp <= |s|
      invariant result + Unescaped(s[cp..], other) == Unescaped(s, other)
    {
      if s[cp] == '%' {
        ghost var start := cp;
        cp := cp + 1;
        if cp == |s| || s[cp] == NUL {
          ReadsEnd(s, start, other);
          return;
        }
        var first := s[cp];
        cp := cp + 1;
        if cp == |s| || s[cp] == NUL {
          ReadsEnd(s, start, other);
          return;
        }
        ReadsPair(s, start, other);
        result := result + [Pair(first, s[cp], other)];
        cp := cp + 1;
      } else {
        ReadsPlain(s, cp, other);
        result := result + [s[cp]];
        cp := cp + 1;
      }
    }
    ReadsEnd(s, cp, other);
  }

  // ---- the round trip ----

  lemma {:induction false} EscapedFromTheFront(c: char, s: string)
    ensures EscapedAll([c] + s) == Escaped(c) + EscapedAll(s)
  {
    hide Escaped;
    var t := [c] + s;
    if s != "" {
      EscapedFromTheFront(c, s[..|s| - 1]);
      assert t[..|t| - 1] == [c] + s[..|s| - 1];
    } else {
      assert t[..0] == "" && EscapedAll("") == "";
    }
  }

  lemma UnescapesOne(c: char, rest: string, other: Reading)
    requires c != NUL
    ensures Unescaped(Escaped(c) + rest, other) == [c] + Unescaped(rest, other)
  {
    var s := Escaped(c) + rest;
    if |Escaped(c)| == 1 {
      assert s[1..] == rest;
    } else {
      assert s[3..] == rest;
      assert Pair(s[1], s[2], other) == c;
    }
  }

  function UpToNul(s: string): string {
    if s == "" || s[0] == NUL then "" else [s[0]] + UpToNul(s[1..])
  }

  /** Reading back what was escaped gives the text up to its first NUL, whatever else Qt reads. */
  lemma {:induction false} ReadsBack(s: string, other: Reading)
    ensures Unescaped(EscapedAll(s), other) == UpToNul(s)
  {
    hide Escaped;
    if s != "" {
      EscapedFromTheFront(s[0], s[1..]);
      assert [s[0]] + s[1..] == s;
      if s[0] != NUL {
        ReadsBack(s[1..], other);
        UnescapesOne(s[0], EscapedAll(s[1..]), other);
      } else {
        NulIsKept();
      }
    }
  }

  lemma NulIsKept()
    ensures Escaped(NUL) == [NUL]
  {
  }

  lemma {:induction false} UpToNulIff(s: string)
    ensures UpToNul(s) == s <==> NUL !in s
  {
    if s != "" && s[0] != NUL {
      UpToNulIff(s[1..]);
      assert s == [s[0]] + s[1..];
    }
  }

  /** The text comes back whole exactly when it has no NUL. */
  lemma RoundTripIff(s: string, other: Reading)
    ensures Unescaped(EscapedAll(s), other) == s <==> NUL !in s
  {
    hide EscapedAll, Unescaped;
    ReadsBack(s, other);
    UpToNulIff(s);
  }

  /** No escape is the beginning of another. */
  lemma FirstOneShows(c: char, x: string, d: char, y: string)
    requires Escaped(c) + x == Escaped(d) + y
    ensures c == d && x == y
  {
    var s := Escaped(c) + x;
    assert s[0] == Escaped(c)[0] == Escaped(d)[0];
    if |Escaped(c)| == 3 {
      assert s[1] == Escaped(c)[1] == Escaped(d)[1] && s[2] == Escaped(c)[2] == Escaped(d)[2];
      assert x == s[3..] && y == s[3..];
    } else {
      assert x == s[1..] && y == s[1..];
    }
  }

  /** Different texts never escape to the same one, NUL or not. */
  lemma {:induction false} EscapeIsInjective(s: string, t: string)
    requires EscapedAll(s) == EscapedAll(t)
    ensures s == t
  {
    hide Escaped;
    if s != "" && t != "" {
      EscapedFromTheFront(s[0], s[1..]);
      EscapedFromTheFront(t[0], t[1..]);
      assert s == [s[0]] + s[1..] && t == [t[0]] + t[1..];
      FirstOneShows(s[0], EscapedAll(s[1..]), t[0], EscapedAll(t[1..]));
      EscapeIsInjective(s[1..], t[1..]);
    } else {
      NeverEmpty(s);
      NeverEmpty(t);
    }
  }

  lemma NeverEmpty(s: string)
    ensures s != "" ==> EscapedAll(s) != ""
  {
  }

  predicate Reserved(c: char) { c in " &<>@:" }

  /** The escaped text holds no reserved character, and every '%' in it starts a two-digit escape. */
  lemma {:induction false} LeavesNoneReserved(s: string)
    ensures forall k :: 0 <= k < |EscapedAll(s)| ==> !Reserved(EscapedAll(s)[k])
  {
    if s != "" {
      LeavesNoneReserved(s[..|s| - 1]);
      var c := s[|s| - 1];
      assert forall k | 0 <= k < |Escaped(c)| :: !Reserved(Escaped(c)[k]);
    }
  }
}
