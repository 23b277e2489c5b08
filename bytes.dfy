/** Octets, fixed-width unsigned integers and their big-endian network encodings,
    the byte layout every wire format of the library is built from. */
module Bytes {

  datatype Option<+T> = None | Some(value: T)

  type byte = x: int | 0 <= x < 256
  type uint32 = x: int | 0 <= x < 0x1_0000_0000
  type uint64 = x: int | 0 <= x < 0x1_0000_0000_0000_0000

  /** 256 to the power n: the number of values an n-byte field can hold. */
  function Pow256(n: nat): (r: nat)
    ensures r >= 1
  {
    if n == 0 then 1 else 256 * Pow256(n - 1)
  }

  /** The unsigned integer a big-endian byte string denotes. */
  function BEToNat(s: seq<byte>): nat
  {
    if s == [] then 0 else BEToNat(s[..|s| - 1]) * 256 + s[|s| - 1]
  }

  /** The n-byte big-endian encoding of a number that fits in n bytes. */
  function NatToBE(x: nat, n: nat): (r: seq<byte>)
    requires x < Pow256(n)
    ensures |r| == n
  {
    if n == 0 then [] else NatToBE(x / 256, n - 1) + [x % 256]
  }

  function Zeros(n: nat): (r: seq<byte>)
    ensures |r| == n && forall i :: 0 <= i < n ==> r[i] == 0
  {
    seq(n, i => 0)
  }

  /** The value of an n-byte string is below 256^n. */
  lemma {:induction false} BEToNatBound(s: seq<byte>)
    ensures BEToNat(s) < Pow256(|s|)
  {
    if s != [] {
      BEToNatBound(s[..|s| - 1]);
    }
  }

  /** Decoding an n-byte encoding gives back the number. */
  lemma {:induction false} BEToNatOfNatToBE(x: nat, n: nat)
    requires x < Pow256(n)
    ensures BEToNat(NatToBE(x, n)) == x
  {
    if n > 0 {
      var r := NatToBE(x, n);
      assert r[..n - 1] == NatToBE(x / 256, n - 1);
      BEToNatOfNatToBE(x / 256, n - 1);
    }
  }

  /** Encoding the value of a byte string gives back that byte string. */
  lemma {:induction false} NatToBEOfBEToNat(s: seq<byte>)
    ensures BEToNat(s) < Pow256(|s|) && NatToBE(BEToNat(s), |s|) == s
  {
    BEToNatBound(s);
    if s != [] {
      var init := s[..|s| - 1];
      NatToBEOfBEToNat(init);
      var v := BEToNat(s);
      assert v == BEToNat(init) * 256 + s[|s| - 1];
      assert v / 256 == BEToNat(init);
      assert v % 256 == s[|s| - 1];
      assert s == init + [s[|s| - 1]];
    }
  }

  /** The four-byte network-order encoding of a 32-bit integer. */
  function U32ToBE(x: uint32): (r: seq<byte>)
    ensures |r| == 4
  {
    NatToBE(x, 4)
  }

  function BEToU32(s: seq<byte>): (x: uint32)
    requires |s| == 4
  {
    BEToNatBound(s);
    BEToNat(s)
  }

  lemma U32RoundTrip(x: uint32)
    ensures BEToU32(U32ToBE(x)) == x
  {
    BEToNatOfNatToBE(x, 4);
  }

  function U64ToBE(x: uint64): (r: seq<byte>)
    ensures |r| == 8
  {
    NatToBE(x, 8)
  }

  function BEToU64(s: seq<byte>): (x: uint64)
    requires |s| == 8
  {
    BEToNatBound(s);
    BEToNat(s)
  }

  lemma U64RoundTrip(x: uint64)
    ensures BEToU64(U64ToBE(x)) == x
  {
    BEToNatOfNatToBE(x, 8);
  }

  /** Bitwise exclusive or of two naturals, bit by bit from the least significant. */
  function XorNat(a: nat, b: nat): nat
    decreases a + b
  {
    if a == 0 && b == 0 then 0 else (a + b) % 2 + 2 * XorNat(a / 2, b / 2)
  }

  lemma {:induction false} XorNatBound(a: nat, b: nat, n: nat)
    requires a < Pow2(n) && b < Pow2(n)
    ensures XorNat(a, b) < Pow2(n)
    decreases a + b
  {
    if !(a == 0 && b == 0) {
      XorNatBound(a / 2, b / 2, n - 1);
    }
  }

  function Pow2(n: nat): (r: nat)
    ensures r >= 1
  {
    if n == 0 then 1 else 2 * Pow2(n - 1)
  }

  /** Byte-wise XOR, the combining step of a stream cipher. */
  function Xor(a: byte, b: byte): (r: byte)
  {
    assert Pow2(8) == 256;
    XorNatBound(a, b, 8);
    XorNat(a, b)
  }

  /** XOR with the same keystream byte twice is the identity. */
  lemma {:induction false} XorNatInvolutive(a: nat, k: nat)
    ensures XorNat(XorNat(a, k), k) == a
    decreases a + k
  {
    if !(a == 0 && k == 0) {
      var h := XorNat(a / 2, k / 2);
      var c := (a + k) % 2 + 2 * h;
      assert XorNat(a, k) == c;
      XorNatInvolutive(a / 2, k / 2);
      XorStep(c, k, h, a);
    }
  }

  lemma XorStep(c: nat, k: nat, h: nat, a: nat)
    requires c == (a + k) % 2 + 2 * h && XorNat(h, k / 2) == a / 2
    ensures XorNat(c, k) == a
  {
    ParityStep(c, k, h, a);
    if !(c == 0 && k == 0) {
      assert XorNat(c, k) == (c + k) % 2 + 2 * XorNat(c / 2, k / 2);
    }
  }

  /** The arithmetic behind one bit of XorStep. */
  lemma ParityStep(c: nat, k: nat, h: nat, a: nat)
    requires c == (a + k) % 2 + 2 * h
    ensures c / 2 == h && (c + k) % 2 == a % 2 && a == a % 2 + 2 * (a / 2)
  {
    var ab, kb := a % 2, k % 2;
    var bit := (ab + kb) % 2;
    assert a == ab + 2 * (a / 2) && k == kb + 2 * (k / 2);
    assert a + k == (ab + kb) + 2 * (a / 2 + k / 2);
    SumParity(ab + kb, a / 2 + k / 2);
    Halve(bit, h);
    assert c + k == (bit + kb) + 2 * (h + k / 2);
    SumParity(bit + kb, h + k / 2);
  }

  /** A number below two plus twice y: its parity and its half. */
  lemma Halve(x: nat, y: nat)
    requires x < 2
    ensures (x + 2 * y) % 2 == x && (x + 2 * y) / 2 == y
  {
  }

  /** The parity of x + 2 * y for x below three. */
  lemma SumParity(x: nat, y: nat)
    requires x < 3
    ensures (x + 2 * y) % 2 == x % 2
  {
    if x == 2 {
      Halve(0, y + 1);
    } else {
      Halve(x, y);
    }
  }

  lemma XorInvolutive(a: byte, k: byte)
    ensures Xor(Xor(a, k), k) == a
  {
    XorNatInvolutive(a, k);
  }

  /** XOR into an all-zero block exposes the keystream itself. */
  lemma {:induction false} XorNatZero(k: nat)
    ensures XorNat(0, k) == k
    decreases k
  {
    if k != 0 {
      XorNatZero(k / 2);
    }
  }

  lemma XorZero(k: byte)
    ensures Xor(0, k) == k
  {
    XorNatZero(k);
  }

  /** The Latin-1 reading of raw bytes as characters. */
  function BytesToChars(b: seq<byte>): (r: string)
    ensures |r| == |b| && forall i :: 0 <= i < |b| ==> r[i] as int == b[i]
  {
    seq(|b|, i requires 0 <= i < |b| => b[i] as char)
  }

  predicate IsLatin1(s: string)
  {
    forall i :: 0 <= i < |s| ==> s[i] as int < 256
  }

  function CharsToBytes(s: string): (r: seq<byte>)
    requires IsLatin1(s)
    ensures |r| == |s| && forall i :: 0 <= i < |s| ==> r[i] == s[i] as int
  {
    seq(|s|, i requires 0 <= i < |s| => s[i] as int)
  }

  lemma CharsBytesRoundTrip(s: string)
    requires IsLatin1(s)
    ensures BytesToChars(CharsToBytes(s)) == s
  {
  }
}
