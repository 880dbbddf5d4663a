/** Base 64 (section 4 of RFC 4648) as `QByteArray` writes and reads it. */
module Base64 {
  import opened UStrings

  function Char(d: nat): char
    requires d < 64
  {
    if d < 26 then ('A' as int + d) as char
    else if d < 52 then ('a' as int + d - 26) as char
    else if d < 62 then ('0' as int + d - 52) as char
    else if d == 62 then '+' else '/'
  }

  /** The sextet a character stands for, or -1. */
  function Value(c: char): (d: int)
    ensures -1 <= d < 64
  {
    if 'A' <= c <= 'Z' then c as int - 'A' as int
    else if 'a' <= c <= 'z' then c as int - 'a' as int + 26
    else if '0' <= c <= '9' then c as int - '0' as int + 52
    else if c == '+' then 62
    else if c == '/' then 63
    else -1
  }

  lemma ValueOfChar(d: nat)
    requires d < 64
    ensures Value(Char(d)) == d && Char(d) != '\n'
  {
  }

  function Encode(b: seq<Byte>): string {
    if b == [] then ""
    else if |b| == 1 then [Char(b[0] / 4), Char(b[0] % 4 * 16), '=', '=']
    else if |b| == 2 then [Char(b[0] / 4), Char(b[0] % 4 * 16 + b[1] / 16), Char(b[1] % 16 * 4), '=']
    else [Char(b[0] / 4), Char(b[0] % 4 * 16 + b[1] / 16), Char(b[1] % 16 * 4 + b[2] / 64), Char(b[2] % 64)]
         + Encode(b[3..])
  }

  /** Three bytes are read as one number of 24 bits and printed six bits at a time, highest first. */
  lemma GroupIs(b: seq<Byte>)
    requires |b| >= 3
    ensures var n := b[0] as int * 65536 + b[1] as int * 256 + b[2] as int;
      && n / 262144 < 64
      && Encode(b) == [Char(n / 262144), Char(n / 4096 % 64), Char(n / 64 % 64), Char(n % 64)] + Encode(b[3..])
  {
    hide *;
    EncodesThree(b);
    BytesInSextets(b[0], b[1], b[2]);
  }

  lemma EncodesThree(b: seq<Byte>)
    requires |b| >= 3
    ensures Encode(b) == [Char(b[0] / 4), Char(b[0] % 4 * 16 + b[1] / 16), Char(b[1] % 16 * 4 + b[2] / 64), Char(b[2] % 64)]
                         + Encode(b[3..])
  {
    hide Char;
  }

  lemma BytesInSextets(x: Byte, y: Byte, z: Byte)
    ensures var n := x as int * 65536 + y as int * 256 + z as int;
      n / 262144 == x / 4 && n / 4096 % 64 == x % 4 * 16 + y / 16 && n / 64 % 64 == y % 16 * 4 + z / 64 && n % 64 == z % 64
  {
    SextetsAre(x / 4, x % 4, y / 16, y % 16, z / 64, z % 64);
    assert x as int == 4 * (x as int / 4) + x % 4;
    assert y as int == 16 * (y as int / 16) + y % 16;
    assert z as int == 64 * (z as int / 64) + z % 64;
  }

  lemma SextetsAre(a: nat, b: nat, c: nat, d: nat, e: nat, f: nat)
    requires a < 64 && b < 4 && c < 16 && d < 16 && e < 4 && f < 64
    ensures var n := (4 * a + b) * 65536 + (16 * c + d) * 256 + 64 * e + f;
      n / 262144 == a && n / 4096 % 64 == 16 * b + c && n / 64 % 64 == 4 * d + e && n % 64 == f
  {
    var n := (4 * a + b) * 65536 + (16 * c + d) * 256 + 64 * e + f;
    assert n / 262144 == a && n % 64 == f;
    assert n / 4096 == 64 * a + 16 * b + c;
    assert n / 64 == 4096 * a + 1024 * b + 64 * c + 4 * d + e;
  }

  /** What is left over between bytes: the low `bits` bits read so far. */
  predicate Pending(buf: nat, bits: nat) {
    (bits == 0 && buf == 0) || (bits == 2 && buf < 4) || (bits == 4 && buf < 16) || (bits == 6 && buf < 64)
  }

  /** Skips what is not in the alphabet and drops the bits left at the end. */
  function Decode(s: string, buf: nat, bits: nat): seq<Byte>
    requires Pending(buf, bits)
  {
    if s == "" then []
    else
      var d := Value(s[0]);
      if d < 0 then Decode(s[1..], buf, bits)
      else
        var v := buf * 64 + d;
        match bits
        case 0 => Decode(s[1..], v, 6)
        case 6 => [v / 16] + Decode(s[1..], v % 16, 4)
        case 4 => [v / 4] + Decode(s[1..], v % 4, 2)
        case _ => [v] + Decode(s[1..], 0, 0)
  }

  lemma DecodeStep(d: nat, s: string, buf: nat, bits: nat)
    requires d < 64 && Pending(buf, bits)
    ensures Decode([Char(d)] + s, buf, bits)
            == if bits == 0 then Decode(s, d, 6)
               else if bits == 6 then [(buf * 64 + d) / 16] + Decode(s, (buf * 64 + d) % 16, 4)
               else if bits == 4 then [(buf * 64 + d) / 4] + Decode(s, (buf * 64 + d) % 4, 2)
               else [buf * 64 + d] + Decode(s, 0, 0)
  {
    hide Char, Value;
    ValueOfChar(d);
    assert ([Char(d)] + s)[1..] == s;
  }

  lemma {:induction false} DecodePadding(s: string, buf: nat, bits: nat)
    requires Pending(buf, bits) && (s == "" || s == "=" || s == "==")
    ensures Decode(s, buf, bits) == []
  {
    if s != "" {
      DecodePadding(s[1..], buf, bits);
    }
  }

  lemma DecodeOne(a: Byte)
    ensures Decode(Encode([a]), 0, 0) == [a]
  {
    hide Char, Decode;
    var b := [a];
    var x, y := a / 4, a % 4 * 16;
    assert Encode(b) == [Char(x)] + ([Char(y)] + "==");
    DecodeStep(x, [Char(y)] + "==", 0, 0);
    DecodeStep(y, "==", x, 6);
    DecodePadding("==", (x * 64 + y) % 16, 4);
    assert (x * 64 + y) / 16 == a;
  }

  lemma DecodeTwo(a: Byte, b: Byte)
    ensures Decode(Encode([a, b]), 0, 0) == [a, b]
  {
    hide Char, Decode;
    var x, y, z := a / 4, a % 4 * 16 + b / 16, b % 16 * 4;
    assert Encode([a, b]) == [Char(x)] + ([Char(y)] + ([Char(z)] + "="));
    DecodeStep(x, [Char(y)] + ([Char(z)] + "="), 0, 0);
    DecodeStep(y, [Char(z)] + "=", x, 6);
    assert (x * 64 + y) / 16 == a && (x * 64 + y) % 16 == b / 16;
    DecodeStep(z, "=", b / 16, 4);
    DecodePadding("=", (b / 16 * 64 + z) % 4, 2);
  }

  lemma DecodeThree(a: Byte, b: Byte, c: Byte, s: string)
    ensures var x, y, z, w := a / 4, a % 4 * 16 + b / 16, b % 16 * 4 + c / 64, c % 64;
      Decode([Char(x), Char(y), Char(z), Char(w)] + s, 0, 0) == [a, b, c] + Decode(s, 0, 0)
  {
    hide Char, Decode;
    var x, y, z, w := a / 4, a % 4 * 16 + b / 16, b % 16 * 4 + c / 64, c % 64;
    assert [Char(x), Char(y), Char(z), Char(w)] + s == [Char(x)] + ([Char(y)] + ([Char(z)] + ([Char(w)] + s)));
    DecodeStep(x, [Char(y)] + ([Char(z)] + ([Char(w)] + s)), 0, 0);
    DecodeStep(y, [Char(z)] + ([Char(w)] + s), x, 6);
    assert (x * 64 + y) / 16 == a && (x * 64 + y) % 16 == b / 16;
    DecodeStep(z, [Char(w)] + s, b / 16, 4);
    assert (b / 16 * 64 + z) / 4 == b && (b / 16 * 64 + z) % 4 == c / 64;
    DecodeStep(w, s, c / 64, 2);
  }

  lemma {:induction false} RoundTrip(b: seq<Byte>)
    ensures Decode(Encode(b), 0, 0) == b
  {
    if b == [] {
    } else if |b| == 1 {
      DecodeOne(b[0]);
      assert b == [b[0]];
    } else if |b| == 2 {
      DecodeTwo(b[0], b[1]);
      assert b == [b[0], b[1]];
    } else {
      RoundTrip(b[3..]);
      DecodeThree(b[0], b[1], b[2], Encode(b[3..]));
      assert b == [b[0], b[1], b[2]] + b[3..];
    }
  }

  lemma {:induction false} EncodesOnOneLine(b: seq<Byte>)
    ensures '\n' !in Encode(b)
  {
    if |b| >= 3 {
      EncodesOnOneLine(b[3..]);
    }
    forall d: nat | d < 64
      ensures Char(d) != '\n'
    {
      ValueOfChar(d);
    }
  }

  // ---- bytes of a bitmap ----

  function Bytes(bits: seq<bv8>): seq<Byte> {
    seq(|bits|, i requires 0 <= i < |bits| => bits[i] as int)
  }

  function Bits(bytes: seq<Byte>): seq<bv8> {
    seq(|bytes|, i requires 0 <= i < |bytes| => bytes[i] as bv8)
  }

  lemma BitsOfBytes(bits: seq<bv8>)
    ensures Bits(Bytes(bits)) == bits
  {
    forall i | 0 <= i < |bits|
      ensures (bits[i] as int) as bv8 == bits[i]
    {
      ByteBack(bits[i]);
    }
  }

  lemma ByteBack(b: bv8)
    ensures (b as int) as bv8 == b
  {
  }
}
