/** Byte-level helpers shared by the DHCP model: the byte and 32-bit unsigned
    value types, Python's shifts and `&` on non-negative integers, big-endian
    decoding and byte-range comparison. */
module Bytes {

  /** One octet of a packet buffer. */
  type byte = x: int | 0 <= x < 256

  /** An unsigned 32-bit value: an IPv4 address, a net mask. */
  type uint32 = x: int | 0 <= x <= 0xFFFF_FFFF

  /** `x << s`: `x` doubled `s` times. */
  function Shl(x: nat, s: nat): nat
  {
    if s == 0 then x else 2 * Shl(x, s - 1)
  }

  /** `x >> s`: `x` halved (rounding down) `s` times. */
  function Shr(x: nat, s: nat): nat
  {
    if s == 0 then x else Shr(x / 2, s - 1)
  }

  /** The number whose `k` lowest bits are set and no other: 2^k - 1. */
  function Ones(k: nat): nat
  {
    if k == 0 then 0 else 2 * Ones(k - 1) + 1
  }

  /** Python's `&` on two non-negative integers, bit by bit from the least
      significant end. */
  function BitAnd(a: nat, b: nat): (r: nat)
    ensures r <= a && r <= b
  {
    if a == 0 || b == 0 then 0
    else 2 * BitAnd(a / 2, b / 2) + (if a % 2 == 1 && b % 2 == 1 then 1 else 0)
  }

  lemma Ones8()
    ensures Ones(8) == 0xFF
  {
    assert Ones(4) == 15;
  }

  lemma Ones32()
    ensures Ones(32) == 0xFFFF_FFFF
  {
    OnesSplit(16, 16);
    OnesSplit(8, 8);
    Ones8();
    ShlByte(Ones(8));
    ShlByte(Ones(16));
  }

  lemma {:induction false} ShlByte(x: nat)
    ensures Shl(x, 8) == 256 * x && Shl(x, 16) == 65536 * x
  {
    ShlMul(x);
    ShlAdd(x, 8, 8);
    ShlMul(Shl(x, 8));
  }

  lemma ShlMul(x: nat)
    ensures Shl(x, 8) == 256 * x
  {
    assert Shl(x, 1) == 2 * x;
    assert Shl(x, 2) == 4 * x;
    assert Shl(x, 3) == 8 * x;
    assert Shl(x, 4) == 16 * x;
    assert Shl(x, 5) == 32 * x;
    assert Shl(x, 6) == 64 * x;
    assert Shl(x, 7) == 128 * x;
  }

  lemma {:induction false} ShlAdd(x: nat, a: nat, b: nat)
    ensures Shl(x, a + b) == Shl(Shl(x, a), b)
  {
    if b > 0 {
      ShlAdd(x, a, b - 1);
    }
  }

  /** The `a + b` low ones are `a` ones shifted past `b` ones. */
  lemma {:induction false} OnesSplit(a: nat, b: nat)
    ensures Ones(a + b) == Shl(Ones(a), b) + Ones(b)
  {
    if b > 0 {
      OnesSplit(a, b - 1);
    }
  }

  lemma {:induction false} ShlMonotone(x: nat, y: nat, s: nat)
    requires x <= y
    ensures Shl(x, s) <= Shl(y, s)
  {
    if s > 0 {
      ShlMonotone(x, y, s - 1);
    }
  }

  lemma {:induction false} OnesMonotone(a: nat, b: nat)
    requires a <= b
    ensures Ones(a) <= Ones(b)
  {
    if a < b {
      OnesMonotone(a, b - 1);
    }
  }

  /** Shifting left by `t` and then right by `s >= t` is shifting right by `s - t`. */
  lemma {:induction false} ShrShl(u: nat, t: nat, s: nat)
    requires t <= s
    ensures Shr(Shl(u, t), s) == Shr(u, s - t)
  {
    if t > 0 {
      ShrOfDouble(Shl(u, t - 1), s);
      ShrShl(u, t - 1, s - 1);
    }
  }

  lemma ShrOfDouble(w: nat, s: nat)
    requires s > 0
    ensures Shr(2 * w, s) == Shr(w, s - 1)
  {
    assert (2 * w) / 2 == w;
  }

  /** A value of at most `n` bits keeps at most `n - t` bits after `>> t`. */
  lemma {:induction false} ShrBound(u: nat, n: nat, t: nat)
    requires u <= Ones(n) && t <= n
    ensures Shr(u, t) <= Ones(n - t)
  {
    if t > 0 {
      ShrBound(u / 2, n - 1, t - 1);
    }
  }

  lemma {:induction false} ShrOnes(n: nat, t: nat)
    requires t <= n
    ensures Shr(Ones(n), t) == Ones(n - t)
  {
    if t > 0 {
      assert Ones(n) / 2 == Ones(n - 1);
      ShrOnes(n - 1, t - 1);
    }
  }

  /** AND with the `k` low ones keeps a value of at most `k` bits unchanged. */
  lemma {:induction false} BitAndOnesKeeps(v: nat, k: nat)
    requires v <= Ones(k)
    ensures BitAnd(v, Ones(k)) == v
  {
    if v > 0 {
      assert k > 0;
      BitAndOnesKeeps(v / 2, k - 1);
    }
  }

  /** AND with a mask shifted left by `s`: the `s` low bits vanish and the
      rest is the AND of the shifted-out value with the mask. */
  lemma {:induction false} BitAndShl(x: nat, m: nat, s: nat)
    ensures BitAnd(x, Shl(m, s)) == Shl(BitAnd(Shr(x, s), m), s)
  {
    if s > 0 {
      if x == 0 {
        ShrZero(s);
        ShlZero(s);
      } else if m == 0 {
        ShlZero(s);
        ShlZero(s);
      } else {
        ShlPositive(m, s - 1);
        assert Shl(m, s) / 2 == Shl(m, s - 1);
        BitAndShl(x / 2, m, s - 1);
      }
    }
  }

  lemma {:induction false} ShrZero(s: nat)
    ensures Shr(0, s) == 0
  {
    if s > 0 {
      ShrZero(s - 1);
    }
  }

  lemma {:induction false} ShlZero(s: nat)
    ensures Shl(0, s) == 0
  {
    if s > 0 {
      ShlZero(s - 1);
    }
  }

  lemma {:induction false} ShlPositive(m: nat, s: nat)
    requires m > 0
    ensures Shl(m, s) > 0
  {
    if s > 0 {
      ShlPositive(m, s - 1);
    }
  }

  /** A value shifted left by `s` has no bit among the `s` low ones. */
  lemma {:induction false} ShlClearsLowBits(y: nat, s: nat)
    ensures BitAnd(Shl(y, s), Ones(s)) == 0
  {
    if s > 0 {
      ShlClearsLowBits(y, s - 1);
    }
  }

  /** The value of `s` read as an unsigned big-endian number. */
  function BigEndian(s: seq<byte>): (r: nat)
    ensures r <= Ones(8 * |s|)
  {
    if |s| == 0 then 0
    else
      var init := BigEndian(s[..|s| - 1]);
      OnesSplit(8 * (|s| - 1), 8);
      Ones8();
      ShlMul(Ones(8 * (|s| - 1)));
      init * 256 + s[|s| - 1]
  }

  /** `unpack_big_endian(buf, offset, length)`: the `length` bytes at
      `offset`, most significant first. */
  function UnpackBigEndian(buf: seq<byte>, offset: nat, length: nat): (r: nat)
    requires offset + length <= |buf|
    ensures r <= Ones(8 * length)
  {
    BigEndian(buf[offset..offset + length])
  }

  lemma {:induction false} BigEndianFour(a: byte, b: byte, c: byte, d: byte)
    ensures BigEndian([a, b, c, d]) == a * 0x100_0000 + b * 0x1_0000 + c * 0x100 + d
  {
    assert [a, b, c, d][..3] == [a, b, c];
    assert [a, b, c][..2] == [a, b];
    assert [a, b][..1] == [a];
    assert [a][..0] == [];
    assert BigEndian([a]) == a;
    assert BigEndian([a, b]) == a * 0x100 + b;
    assert BigEndian([a, b, c]) == a * 0x1_0000 + b * 0x100 + c;
  }

  /** `compare_bytes(a, b, offset, length)`: the two buffers agree on the
      `length` bytes starting at `offset`. */
  predicate CompareBytes(a: seq<byte>, b: seq<byte>, offset: nat, length: nat): (r: bool)
    requires offset + length <= |a| && offset + length <= |b|
    ensures r <==> forall k :: offset <= k < offset + length ==> a[k] == b[k]
  {
    a[offset..offset + length] == b[offset..offset + length]
  }
}
