/** Bytes and the little-endian integers that every mmbus format is built from. */
module Bytes {
  type byte = n: int | 0 <= n < 256

  const U16: nat := 0x1_0000
  const U32: nat := 0x1_0000_0000
  const U64: nat := 0x1_0000_0000_0000_0000

  type u32 = n: int | 0 <= n < 0x1_0000_0000
  type u64 = n: int | 0 <= n < 0x1_0000_0000_0000_0000

  /** A checksum is any total function of the bytes: CRC-32C (section 12.1 of RFC 3720) is one. */
  type Checksum = seq<byte> -> u32

  datatype Option<+T> = None | Some(value: T)

  function Pow256(k: nat): (p: nat)
    ensures p > 0
  {
    if k == 0 then 1 else 256 * Pow256(k - 1)
  }

  /** The low `k` bytes of `n`, least significant first: `n as uK` followed by `to_le_bytes`. */
  function LE(n: nat, k: nat): (s: seq<byte>)
    ensures |s| == k
  {
    if k == 0 then [] else [n % 256] + LE(n / 256, k - 1)
  }

  function FromLE(s: seq<byte>): nat {
    if s == [] then 0 else s[0] + 256 * FromLE(s[1..])
  }

  /** Reading back what was written gives the value reduced to the width of the field. */
  lemma {:induction false} FromLEOfLE(n: nat, k: nat)
    ensures FromLE(LE(n, k)) == n % Pow256(k)
  {
    if k > 0 {
      FromLEOfLE(n / 256, k - 1);
      ModSplit(n, Pow256(k - 1));
      assert LE(n, k)[1..] == LE(n / 256, k - 1);
    }
  }

  /** Splitting a remainder at its lowest byte. */
  lemma {:induction false} ModSplit(n: nat, p: nat)
    requires p > 0
    ensures n % (256 * p) == n % 256 + 256 * (n / 256 % p)
  {
    var q, b := n / 256, n % 256;
    var h, r := q / p, q % p;
    assert n == 256 * q + b;
    assert q == p * h + r;
    assert n == (256 * p) * h + (256 * r + b) by {
      assert 256 * (p * h) == (256 * p) * h;
    }
    assert 0 <= 256 * r + b < 256 * p;
    RemainderIs(n, 256 * p, h, 256 * r + b);
  }

  lemma {:induction false} RemainderIs(n: int, d: nat, q: int, r: nat)
    requires 0 <= r < d && n == d * q + r
    ensures n % d == r
  {
    var q', r' := n / d, n % d;
    assert d * (q - q') == r' - r;
    MulGap(d, q - q');
  }

  lemma {:induction false} MulGap(d: int, k: int)
    requires d >= 0
    ensures k >= 1 ==> d * k >= d
    ensures k <= -1 ==> d * k <= -d
  {
  }

  lemma {:induction false} FromLEBound(s: seq<byte>)
    ensures FromLE(s) < Pow256(|s|)
  {
    if s != [] { FromLEBound(s[1..]); }
  }

  /** Any bytes are the encoding of the number they decode to. */
  lemma {:induction false} LEOfFromLE(s: seq<byte>)
    ensures LE(FromLE(s), |s|) == s
  {
    if s != [] {
      LEOfFromLE(s[1..]);
      assert FromLE(s) % 256 == s[0] && FromLE(s) / 256 == FromLE(s[1..]);
      assert s == [s[0]] + s[1..];
    }
  }

  lemma {:induction false} Widths()
    ensures Pow256(2) == U16 && Pow256(4) == U32 && Pow256(8) == U64
  {
    assert Pow256(1) == 256 && Pow256(2) == 0x1_0000 && Pow256(3) == 0x100_0000;
    assert Pow256(4) == U32 && Pow256(5) == 256 * U32 && Pow256(6) == 0x1_0000 * U32;
    assert Pow256(7) == 0x100_0000 * U32;
  }

  /** Least significant byte first: what comes later counts for more. */
  lemma {:induction false} FromLEConcat(a: seq<byte>, b: seq<byte>)
    ensures FromLE(a + b) == FromLE(a) + Pow256(|a|) * FromLE(b)
    ensures |a| == 1 ==> FromLE(a) == a[0]
  {
    if a == [] {
      assert a + b == b;
    } else {
      assert (a + b)[1..] == a[1..] + b;
      FromLEConcat(a[1..], b);
      Distribute(256, FromLE(a[1..]), Pow256(|a| - 1), FromLE(b));
    }
  }

  lemma {:induction false} Distribute(k: nat, x: nat, p: nat, y: nat)
    ensures k * (x + p * y) == k * x + k * p * y
  {
  }

  /** A field that fits its width survives the trip through memory. */
  lemma {:induction false} RoundTrip32(n: nat)
    requires n < U32
    ensures FromLE(LE(n, 4)) == n
  {
    FromLEOfLE(n, 4); Widths();
  }

  lemma {:induction false} RoundTrip64(n: nat)
    requires n < U64
    ensures FromLE(LE(n, 8)) == n
  {
    FromLEOfLE(n, 8); Widths();
  }

  lemma {:induction false} Decoded32(s: seq<byte>)
    requires |s| == 4
    ensures FromLE(s) < U32 && LE(FromLE(s), 4) == s
  {
    FromLEBound(s); LEOfFromLE(s); Widths();
  }

  lemma {:induction false} Decoded64(s: seq<byte>)
    requires |s| == 8
    ensures FromLE(s) < U64 && LE(FromLE(s), 8) == s
  {
    FromLEBound(s); LEOfFromLE(s); Widths();
  }

  lemma {:induction false} ZeroLength()
    ensures FromLE([0, 0, 0, 0]) == 0
  {
    assert FromLE([0]) == 0 && [0, 0][1..] == [0] && FromLE([0, 0]) == 0;
    assert [0, 0, 0][1..] == [0, 0] && FromLE([0, 0, 0]) == 0;
    assert [0, 0, 0, 0][1..] == [0, 0, 0];
  }
}
