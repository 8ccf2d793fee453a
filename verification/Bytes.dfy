/** Big-endian conversion between numbers and 32-byte buffers (src/core/difficulty.rs, src/core/utils.rs). */
module Bytes {

  const BUF_LEN: nat := 32

  function Pow256(n: nat): (p: nat)
    ensures p > 0
  {
    if n == 0 then 1 else 256 * Pow256(n - 1)
  }

  lemma {:induction false} Pow256Sum(a: nat, b: nat)
    ensures Pow256(a + b) == Pow256(a) * Pow256(b)
  {
    if b > 0 {
      Pow256Sum(a, b - 1);
    }
  }

  predicate AreBytes(b: seq<nat>) {
    forall i | 0 <= i < |b| :: b[i] < 256
  }

  predicate IsBuf32(b: seq<nat>) {
    |b| == BUF_LEN && AreBytes(b)
  }

  function FromBytes(b: seq<nat>): nat {
    if b == [] then 0 else FromBytes(b[..|b| - 1]) * 256 + b[|b| - 1]
  }

  /** Without leading zeros, but at least one byte. */
  function ToBytes(n: nat): (b: seq<nat>)
    ensures b != [] && AreBytes(b)
  {
    if n < 256 then [n] else ToBytes(n / 256) + [n % 256]
  }

  lemma {:induction false} ToBytesReadsBack(n: nat)
    ensures FromBytes(ToBytes(n)) == n
  {
    if n >= 256 {
      var b := ToBytes(n);
      ToBytesReadsBack(n / 256);
      assert b[..|b| - 1] == ToBytes(n / 256);
    }
  }

  function Repeated(byte: nat, n: nat): seq<nat> {
    seq(n, _ => byte)
  }

  function Zeros(n: nat): seq<nat> {
    Repeated(0, n)
  }

  lemma {:induction false} FullBytes(n: nat)
    ensures FromBytes(Repeated(0xFF, n)) == Pow256(n) - 1 && AreBytes(Repeated(0xFF, n))
  {
    if n > 0 {
      FullBytes(n - 1);
      assert Repeated(0xFF, n)[..n - 1] == Repeated(0xFF, n - 1);
    }
  }

  /** `biguint_to_32_bytes`: padded with zeros on the left, or cut to the last 32 bytes. */
  function To32Bytes(value: nat): (b: seq<nat>)
    ensures IsBuf32(b)
  {
    var bytes := ToBytes(value);
    if |bytes| < BUF_LEN then Zeros(BUF_LEN - |bytes|) + bytes else bytes[|bytes| - BUF_LEN..]
  }

  lemma {:induction false} FromBytesSplit(a: seq<nat>, b: seq<nat>)
    ensures FromBytes(a + b) == FromBytes(a) * Pow256(|b|) + FromBytes(b)
  {
    if b == [] {
      assert a + b == a;
    } else {
      var init := b[..|b| - 1];
      assert (a + b)[..|a + b| - 1] == a + init;
      FromBytesSplit(a, init);
      calc {
        FromBytes(a + b);
        (FromBytes(a) * Pow256(|init|) + FromBytes(init)) * 256 + b[|b| - 1];
        FromBytes(a) * (Pow256(|init|) * 256) + FromBytes(b);
      }
    }
  }

  lemma {:induction false} FromBytesBound(b: seq<nat>)
    requires AreBytes(b)
    ensures FromBytes(b) < Pow256(|b|)
  {
    if b != [] {
      FromBytesBound(b[..|b| - 1]);
    }
  }

  lemma {:induction false} ZeroPrefix(n: nat, b: seq<nat>)
    ensures FromBytes(Zeros(n) + b) == FromBytes(b)
  {
    var all := Zeros(n) + b;
    if b != [] {
      ZeroPrefix(n, b[..|b| - 1]);
      assert all[..|all| - 1] == Zeros(n) + b[..|b| - 1];
    } else if n > 0 {
      ZeroPrefix(n - 1, []);
      assert all[..n - 1] == Zeros(n - 1) + [];
    }
  }

  lemma SmallMod(q: int, r: int, m: int)
    requires 0 <= q && 0 <= r < m
    ensures (q * m + r) % m == r
  {
    var x := q * m + r;
    var d := x / m - q;
    assert x == m * (x / m) + x % m;
    assert d * m == r - x % m;
    assert d >= 1 ==> d * m >= m;
    assert d <= -1 ==> d * m <= -m;
  }

  lemma RemainderIs(x: int, q: int, r: int, m: int)
    requires x == q * m + r && 0 <= q && 0 <= r < m
    ensures x % m == r
  {
    SmallMod(q, r, m);
  }

  /** Cutting a buffer to its last `k` bytes keeps its number modulo 256^k. */
  lemma CutIsMod(bytes: seq<nat>, k: nat)
    requires AreBytes(bytes) && k <= |bytes|
    ensures FromBytes(bytes[|bytes| - k..]) == FromBytes(bytes) % Pow256(k) < Pow256(k)
  {
    var high, low := bytes[..|bytes| - k], bytes[|bytes| - k..];
    assert bytes == high + low;
    FromBytesSplit(high, low);
    FromBytesBound(low);
    RemainderIs(FromBytes(bytes), FromBytes(high), FromBytes(low), Pow256(k));
  }

  lemma PadKeeps(bytes: seq<nat>, k: nat)
    requires AreBytes(bytes) && |bytes| <= k
    ensures FromBytes(Zeros(k - |bytes|) + bytes) == FromBytes(bytes) < Pow256(k)
  {
    FromBytesBound(Zeros(k - |bytes|) + bytes);
    ZeroPrefix(k - |bytes|, bytes);
  }

  /** The conversion keeps the number modulo 2^256, so it reads back equal exactly below 2^256. */
  lemma To32BytesReadsBack(n: nat)
    ensures FromBytes(To32Bytes(n)) == n % Pow256(BUF_LEN)
    ensures FromBytes(To32Bytes(n)) == n <==> n < Pow256(BUF_LEN)
  {
    var bytes, limit := ToBytes(n), Pow256(BUF_LEN);
    ToBytesReadsBack(n);
    if |bytes| < BUF_LEN {
      PadKeeps(bytes, BUF_LEN);
      SmallMod(0, n, limit);
    } else {
      CutIsMod(bytes, BUF_LEN);
      if n < limit {
        SmallMod(0, n, limit);
      }
    }
  }
}
