/** Bytes, exclusive-or and big-endian numbers, shared by the transport and the discovery models. */
module Bytes {
  newtype byte = n: int | 0 <= n < 256
  type Buffer = seq<byte>

  type H128 = s: Buffer | |s| == 16 witness seq(16, _ => 0)
  type H256 = s: Buffer | |s| == 32 witness seq(32, _ => 0)
  type PeerId = s: Buffer | |s| == 64 witness seq(64, _ => 0)

  function Zeros(n: nat): (z: Buffer)
    ensures |z| == n
  {
    seq(n, _ => 0)
  }

  function Pow2(n: nat): (r: nat)
    ensures r > 0
  {
    if n == 0 then 1 else 2 * Pow2(n - 1)
  }

  /** Exclusive-or of two numbers, over their low `bits` bits. */
  function XorBits(bits: nat, a: nat, b: nat): (r: nat)
    ensures r < Pow2(bits)
  {
    if bits == 0 then 0 else 2 * XorBits(bits - 1, a / 2, b / 2) + (a + b) % 2
  }

  lemma {:induction false} XorBitsInvolution(bits: nat, a: nat, b: nat)
    requires a < Pow2(bits)
    ensures XorBits(bits, XorBits(bits, a, b), b) == a
  {
    if bits > 0 {
      XorBitsInvolution(bits - 1, a / 2, b / 2);
      Parity(XorBits(bits - 1, a / 2, b / 2), a, b);
    }
  }

  lemma Parity(half: nat, a: nat, b: nat)
    ensures
      var x := 2 * half + (a + b) % 2;
      x / 2 == half && (x + b) % 2 == a % 2
  {
    var q := (a + b) / 2;
    assert a + b == 2 * q + (a + b) % 2;
    assert 2 * half + (a + b) % 2 + b == a + 2 * (half - q + b);
  }

  lemma {:induction false} XorBitsSymmetric(bits: nat, a: nat, b: nat)
    ensures XorBits(bits, a, b) == XorBits(bits, b, a)
  {
    if bits > 0 {
      XorBitsSymmetric(bits - 1, a / 2, b / 2);
    }
  }

  lemma {:induction false} XorBitsSelf(bits: nat, a: nat)
    ensures XorBits(bits, a, a) == 0
  {
    if bits > 0 {
      XorBitsSelf(bits - 1, a / 2);
      assert (a + a) % 2 == 0;
    }
  }

  /** The i-th bit of a number. */
  function Bit(n: nat, i: nat): nat {
    if i == 0 then n % 2 else Bit(n / 2, i - 1)
  }

  /** Bit by bit, the result is set exactly where one of the two is. */
  lemma {:induction false} XorBitsIsXor(bits: nat, a: nat, b: nat, i: nat)
    requires i < bits
    ensures Bit(XorBits(bits, a, b), i) == if Bit(a, i) == Bit(b, i) then 0 else 1
  {
    Parity(XorBits(bits - 1, a / 2, b / 2), a, b);
    if i > 0 {
      XorBitsIsXor(bits - 1, a / 2, b / 2, i - 1);
    }
  }

  function XorByte(a: byte, b: byte): byte {
    assert Pow2(8) == 256;
    XorBits(8, a as nat, b as nat) as byte
  }

  lemma XorByteLaws(a: byte, b: byte)
    ensures XorByte(XorByte(a, b), b) == a
    ensures XorByte(a, b) == XorByte(b, a)
    ensures XorByte(a, b) == 0 <==> a == b
  {
    assert Pow2(8) == 256;
    XorBitsInvolution(8, a as nat, b as nat);
    XorBitsSymmetric(8, a as nat, b as nat);
    XorBitsSelf(8, b as nat);
    XorBitsInvolution(8, b as nat, b as nat);
  }

  /** Bytewise exclusive-or of two buffers of one length. */
  function Xor(a: Buffer, b: Buffer): (r: Buffer)
    requires |a| == |b|
    ensures |r| == |a|
  {
    seq(|a|, i requires 0 <= i < |a| => XorByte(a[i], b[i]))
  }

  /** The low byte of a number: what an `as u8` cast keeps. */
  function LowByte(n: nat): byte {
    (n % 256) as byte
  }

  /** Two big-endian bytes, as `u16::to_be_bytes` writes them. */
  function U16(n: nat): Buffer
    requires n < 0x1_0000
  {
    [LowByte(n / 0x100), LowByte(n)]
  }

  /** Three big-endian bytes, as `BigEndian::write_uint(_, _, 3)` writes them. */
  function U24(n: nat): Buffer
    requires n < 0x100_0000
  {
    [LowByte(n / 0x1_0000), LowByte(n / 0x100), LowByte(n)]
  }

  /** The number a big-endian byte sequence stands for. */
  function BigEndian(s: Buffer): nat
  {
    if s == [] then 0 else BigEndian(s[..|s| - 1]) * 256 + s[|s| - 1] as nat
  }

  lemma U16RoundTrip(n: nat)
    requires n < 0x1_0000
    ensures BigEndian(U16(n)) == n
  {
    var top := [LowByte(n / 0x100)];
    assert top[..0] == [];
    assert BigEndian(top) == n / 0x100;
    assert U16(n)[..1] == top;
    assert U16(n)[1] as nat == n % 0x100;
  }

  lemma U24RoundTrip(n: nat)
    requires n < 0x100_0000
    ensures BigEndian(U24(n)) == n
  {
    var top := [LowByte(n / 0x1_0000)];
    assert top[..0] == [];
    assert U24(n)[..2] == top + [LowByte(n / 0x100)];
    assert U24(n)[..2][..1] == top;
    assert BigEndian(top) == n / 0x1_0000;
    assert BigEndian(U24(n)[..2]) == n / 0x100;
    assert U24(n)[2] as nat == n % 0x100;
  }
}
