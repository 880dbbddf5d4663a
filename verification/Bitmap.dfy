/** Bits in a byte array, low bit first, as the server sets them and the client walks them. */
module Bitmap {

  function Mask(i: nat): bv8
    requires i < 8
  {
    match i
    case 0 => 1
    case 1 => 2
    case 2 => 4
    case 3 => 8
    case 4 => 16
    case 5 => 32
    case 6 => 64
    case 7 => 128
  }

  lemma MaskIs(i: nat)
    requires i < 8
    ensures Mask(i) == (1 as bv8) << i
  {
  }

  predicate On(b: bv8, i: nat)
    requires i < 8
  {
    b & Mask(i) != 0
  }

  function With(b: bv8, i: nat): bv8
    requires i < 8
  {
    b | Mask(i)
  }

  function Without(b: bv8, i: nat): bv8
    requires i < 8
  {
    b & !Mask(i)
  }

  predicate Bit(bytes: seq<bv8>, n: nat)
    requires n / 8 < |bytes|
  {
    On(bytes[n / 8], n % 8)
  }

  function SetBit(bytes: seq<bv8>, n: nat): (r: seq<bv8>)
    requires n / 8 < |bytes|
    ensures |r| == |bytes|
  {
    bytes[n / 8 := With(bytes[n / 8], n % 8)]
  }

  function ClearBit(bytes: seq<bv8>, n: nat): (r: seq<bv8>)
    requires n / 8 < |bytes|
    ensures |r| == |bytes|
  {
    bytes[n / 8 := Without(bytes[n / 8], n % 8)]
  }

  lemma SetBitIs(bytes: seq<bv8>, n: nat)
    requires n / 8 < |bytes|
    ensures SetBit(bytes, n) == bytes[n / 8 := bytes[n / 8] | ((1 as bv8) << n % 8)]
  {
    hide Mask;
    MaskIs(n % 8);
  }

  lemma ClearBitIs(bytes: seq<bv8>, n: nat)
    requires n / 8 < |bytes|
    ensures ClearBit(bytes, n) == bytes[n / 8 := bytes[n / 8] & !((1 as bv8) << n % 8)]
  {
    hide Mask;
    MaskIs(n % 8);
  }

  lemma WithBit(b: bv8, i: nat, j: nat)
    requires i < 8 && j < 8
    ensures On(With(b, i), j) <==> i == j || On(b, j)
  {
  }

  lemma WithoutBit(b: bv8, i: nat, j: nat)
    requires i < 8 && j < 8
    ensures On(Without(b, i), j) <==> i != j && On(b, j)
  {
  }

  lemma SetBitAt(bytes: seq<bv8>, n: nat, m: nat)
    requires n / 8 < |bytes| && m / 8 < |bytes|
    ensures Bit(SetBit(bytes, n), m) <==> m == n || Bit(bytes, m)
  {
    hide On, With;
    WithBit(bytes[n / 8], n % 8, m % 8);
  }

  lemma ClearBitAt(bytes: seq<bv8>, n: nat, m: nat)
    requires n / 8 < |bytes| && m / 8 < |bytes|
    ensures Bit(ClearBit(bytes, n), m) <==> m != n && Bit(bytes, m)
  {
    hide On, Without;
    WithoutBit(bytes[n / 8], n % 8, m % 8);
  }
}
