/** Kademlia distances: the exclusive-or of two hashes read as a 256-bit number, and its binary logarithm. */
module Distance {
  import opened Bytes
  import opened Wrappers

  lemma {:induction false} Pow2Monotone(a: nat, b: nat)
    requires a <= b
    ensures Pow2(a) <= Pow2(b)
    decreases b
  {
    if a < b {
      Pow2Monotone(a, b - 1);
    }
  }

  lemma Pow2Byte(n: nat)
    ensures Pow2(n + 8) == 256 * Pow2(n)
  {
    assert Pow2(n + 8) == 2 * Pow2(n + 7) == 4 * Pow2(n + 6) == 8 * Pow2(n + 5) == 16 * Pow2(n + 4);
    assert Pow2(n + 4) == 2 * Pow2(n + 3) == 4 * Pow2(n + 2) == 8 * Pow2(n + 1) == 16 * Pow2(n);
  }

  /** The size of the hash space. */
  ghost const SPACE: nat := Pow2(256)

  /** `distance`: the keys of the lookup's ordered map, as numbers. */
  function Between(a: H256, b: H256): nat {
    BigEndian(Xor(a, b))
  }

  lemma BetweenSymmetric(a: H256, b: H256)
    ensures Between(a, b) == Between(b, a)
  {
    forall j | 0 <= j < 32 ensures Xor(a, b)[j] == Xor(b, a)[j] {
      XorByteLaws(a[j], b[j]);
    }
    assert Xor(a, b) == Xor(b, a);
  }

  lemma {:induction false} BigEndianBound(s: Buffer)
    ensures BigEndian(s) < Pow2(8 * |s|)
  {
    if s != [] {
      BigEndianBound(s[..|s| - 1]);
      Pow2Byte(8 * (|s| - 1));
    }
  }

  lemma BetweenBound(a: H256, b: H256)
    ensures Between(a, b) < SPACE
  {
    BigEndianBound(Xor(a, b));
  }

  lemma {:induction false} BigEndianZero(s: Buffer)
    ensures BigEndian(s) == 0 <==> forall i :: 0 <= i < |s| ==> s[i] == 0
  {
    if s != [] {
      var n := |s| - 1;
      BigEndianZero(s[..n]);
      assert forall i :: 0 <= i < n ==> s[..n][i] == s[i];
    }
  }

  lemma LastDigit(a: nat, b: nat, c: nat, d: nat)
    requires b < 256 && d < 256 && a * 256 + b == c * 256 + d
    ensures a == c && b == d
  {
  }

  /** Distances are as good as hashes for keys: one number, one byte string. */
  lemma {:induction false} BigEndianInjective(s: Buffer, t: Buffer)
    requires |s| == |t| && BigEndian(s) == BigEndian(t)
    ensures s == t
  {
    if s != [] {
      var n := |s| - 1;
      LastDigit(BigEndian(s[..n]), s[n] as nat, BigEndian(t[..n]), t[n] as nat);
      BigEndianInjective(s[..n], t[..n]);
      assert s == s[..n] + [s[n]] && t == t[..n] + [t[n]];
    }
  }

  /** `l` is the floor of the binary logarithm of `n`. */
  predicate IsLog(n: nat, l: nat) {
    Pow2(l) <= n < Pow2(l + 1)
  }

  lemma LogUnique(n: nat, l: nat, m: nat)
    requires IsLog(n, l) && IsLog(n, m)
    ensures l == m
  {
    if l < m { Pow2Monotone(l + 1, m); }
    if m < l { Pow2Monotone(m + 1, l); }
  }

  function Log2(n: nat): (l: nat)
    requires n > 0
    ensures IsLog(n, l)
  {
    if n == 1 then 0 else 1 + Log2(n / 2)
  }

  /** The bucket a remote hash belongs to: none for the local hash itself. */
  function BucketIndex(idHash: H256, remoteHash: H256): (l: Option<nat>)
    ensures l.None? <==> idHash == remoteHash
    ensures l.Some? ==> l.value < 256 && IsLog(Between(idHash, remoteHash), l.value)
  {
    XorZero(idHash, remoteHash);
    BigEndianZero(Xor(idHash, remoteHash));
    if Between(idHash, remoteHash) == 0 then None
    else
      var l := Log2(Between(idHash, remoteHash));
      BetweenBound(idHash, remoteHash);
      assert l < 256 by { if l >= 256 { Pow2Monotone(256, l); } }
      Some(l)
  }

  /** A node in a lower bucket is strictly closer to the local hash than one in a higher bucket. */
  lemma LowerBucketIsCloser(idHash: H256, a: H256, b: H256)
    requires BucketIndex(idHash, a).Some? && BucketIndex(idHash, b).Some?
    requires BucketIndex(idHash, a).value < BucketIndex(idHash, b).value
    ensures Between(idHash, a) < Between(idHash, b)
  {
    Pow2Monotone(BucketIndex(idHash, a).value + 1, BucketIndex(idHash, b).value);
  }

  /** The position of the highest set bit: seven minus the leading zeros. */
  function HighBit(b: byte): nat {
    if b >= 0x80 then 7 else if b >= 0x40 then 6 else if b >= 0x20 then 5 else if b >= 0x10 then 4
    else if b >= 0x08 then 3 else if b >= 0x04 then 2 else if b >= 0x02 then 1 else 0
  }

  lemma HighBitIsLog(b: byte)
    requires b != 0
    ensures IsLog(b as nat, HighBit(b))
  {
    assert Pow2(1) == 2 && Pow2(2) == 4 && Pow2(3) == 8 && Pow2(4) == 16;
    assert Pow2(5) == 32 && Pow2(6) == 64 && Pow2(7) == 128 && Pow2(8) == 256;
  }

  /** Below leading zero bytes, the first nonzero byte fixes the logarithm of the whole number. */
  lemma {:induction false} LogFromFirstByte(s: Buffer, k: nat)
    requires k < |s| && s[k] != 0 && forall i :: 0 <= i < k ==> s[i] == 0
    ensures IsLog(BigEndian(s), 8 * (|s| - 1 - k) + HighBit(s[k]))
    decreases |s|
  {
    var n := |s| - 1;
    if k == n {
      BigEndianZero(s[..n]);
      HighBitIsLog(s[n]);
    } else {
      LogFromFirstByte(s[..n], k);
      var l := 8 * (n - 1 - k) + HighBit(s[k]);
      Pow2Byte(l);
      Pow2Byte(l + 1);
    }
  }

  /** `logdistance`: scans for the first byte in which the hashes differ. */
  method LogDistance(idHash: H256, remoteHash: H256) returns (l: Option<nat>)
    ensures l == BucketIndex(idHash, remoteHash)
  {
    ghost var x := Xor(idHash, remoteHash);
    var i := 32;
    while i > 0
      invariant 0 <= i <= 32
      invariant forall j :: 0 <= j < 32 - i ==> x[j] == 0
    {
      i := i - 1;
      var byteIndex := 32 - i - 1;
      var d := XorByte(idHash[byteIndex], remoteHash[byteIndex]);
      if d != 0 {
        LogFromFirstByte(x, byteIndex);
        XorZero(idHash, remoteHash);
        LogUnique(Between(idHash, remoteHash), i * 8 + HighBit(d), BucketIndex(idHash, remoteHash).value);
        return Some(i * 8 + HighBit(d));
      }
    }
    XorZero(idHash, remoteHash);
    return None;
  }

  lemma XorZero(a: H256, b: H256)
    ensures a == b <==> forall j :: 0 <= j < 32 ==> Xor(a, b)[j] == 0
  {
    forall j | 0 <= j < 32 ensures Xor(a, b)[j] == 0 <==> a[j] == b[j] {
      XorByteLaws(a[j], b[j]);
    }
  }
}
