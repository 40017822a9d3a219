/** Fixed-width unsigned values as integers, and their little-endian byte forms. */
module Bytes {

  type u8 = n: int | 0 <= n < 0x100
  type u16 = n: int | 0 <= n < 0x1_0000
  type u32 = n: int | 0 <= n < 0x1_0000_0000

  function Pow256(n: nat): (p: nat)
    ensures p > 0
  {
    if n == 0 then 1 else 256 * Pow256(n - 1)
  }

  /** The low `size` bytes of `val`, least significant first. */
  function LE(val: nat, size: nat): (bs: seq<u8>)
    ensures |bs| == size
  {
    if size == 0 then [] else [val % 256] + LE(val / 256, size - 1)
  }

  function FromLE(bs: seq<u8>): nat {
    if bs == [] then 0 else bs[0] + 256 * FromLE(bs[1..])
  }

  function Reverse(bs: seq<u8>): (r: seq<u8>)
    ensures |r| == |bs|
    ensures forall i :: 0 <= i < |bs| ==> r[i] == bs[|bs| - 1 - i]
  {
    if bs == [] then [] else Reverse(bs[1..]) + [bs[0]]
  }

  /** The pieces one after the other. */
  function Flatten(pieces: seq<seq<u8>>): seq<u8> {
    if pieces == [] then [] else pieces[0] + Flatten(pieces[1..])
  }

  lemma {:induction false} FromLEBound(bs: seq<u8>)
    ensures FromLE(bs) < Pow256(|bs|)
  {
    if bs != [] {
      FromLEBound(bs[1..]);
    }
  }

  lemma {:induction false} FromLEOfLE(val: nat, size: nat)
    requires val < Pow256(size)
    ensures FromLE(LE(val, size)) == val
  {
    if size > 0 {
      FromLEOfLE(val / 256, size - 1);
      assert LE(val, size)[1..] == LE(val / 256, size - 1);
    }
  }

  /** `val >> 8*i`. */
  function ShiftRight(val: nat, i: nat): nat {
    if i == 0 then val else ShiftRight(val / 256, i - 1)
  }

  /** Byte i of the little-endian form is the low byte of the value shifted right by i bytes. */
  lemma {:induction false} LEAt(val: nat, size: nat, i: nat)
    requires i < size
    ensures LE(val, size)[i] == ShiftRight(val, i) % 256
  {
    if i > 0 {
      LEAt(val / 256, size - 1, i - 1);
    }
  }

  lemma LowByteFirst(b: u8, rest: nat, size: nat)
    ensures LE(b + 256 * rest, size + 1) == [b] + LE(rest, size)
  {
  }

  /** The byte orders of two and four bytes. */
  lemma ByteOrder(b0: u8, b1: u8, b2: u8, b3: u8)
    ensures LE(b0 + 0x100 * b1, 2) == [b0, b1] && FromLE([b0, b1]) == b0 + 0x100 * b1
    ensures LE(b0 + 0x100 * b1 + 0x1_0000 * b2 + 0x100_0000 * b3, 4) == [b0, b1, b2, b3]
    ensures FromLE([b0, b1, b2, b3]) == b0 + 0x100 * b1 + 0x1_0000 * b2 + 0x100_0000 * b3
    ensures Reverse([b0, b1]) == [b1, b0] && Reverse([b0, b1, b2, b3]) == [b3, b2, b1, b0]
  {
    hide LE;
    LowByteFirst(b3, 0, 0);
    LowByteFirst(b2, b3, 1);
    LowByteFirst(b1, b2 + 256 * b3, 2);
    LowByteFirst(b0, b1 + 256 * (b2 + 256 * b3), 3);
    LowByteFirst(b1, 0, 0);
    LowByteFirst(b0, b1, 1);
    NoBytesLeft(0);
    assert Pow256(2) == 0x1_0000 && Pow256(4) == 0x1_0000_0000 by { assert Pow256(2) == 0x1_0000; }
    FromLEOfLE(b0 + 0x100 * b1, 2);
    FromLEOfLE(b0 + 0x100 * b1 + 0x1_0000 * b2 + 0x100_0000 * b3, 4);
    assert [b0, b1, b2, b3][1..] == [b1, b2, b3] && [b1, b2, b3][1..] == [b2, b3] && [b2, b3][1..] == [b3];
    assert [b0, b1][1..] == [b1];
  }

  lemma NoBytesLeft(val: nat)
    ensures LE(val, 0) == []
  {
  }

  lemma {:induction false} FromLEAppend(bs: seq<u8>, b: u8)
    ensures FromLE(bs + [b]) == FromLE(bs) + b * Pow256(|bs|)
  {
    if bs == [] {
      assert bs + [b] == [b];
      assert [b][1..] == [];
    } else {
      FromLEAppend(bs[1..], b);
      assert (bs + [b])[1..] == bs[1..] + [b];
      assert 256 * (b * Pow256(|bs| - 1)) == b * Pow256(|bs|) by {
        assert Pow256(|bs|) == 256 * Pow256(|bs| - 1);
      }
    }
  }

  lemma {:induction false} ReverseTwice(bs: seq<u8>)
    ensures Reverse(Reverse(bs)) == bs
  {
  }

  /** Bitwise exclusive or. */
  function Xor(a: nat, b: nat): nat {
    if a == 0 && b == 0 then 0 else 2 * Xor(a / 2, b / 2) + (a + b) % 2
  }

  lemma {:induction false} XorSelfInverse(a: nat, b: nat)
    ensures Xor(Xor(a, b), b) == a
    decreases a + b
  {
    hide Xor;
    XorStep(a, b);
    if a > 0 || b > 0 {
      var x := Xor(a, b);
      XorStep(x, b);
      XorSelfInverse(a / 2, b / 2);
    }
  }

  /** Bit k of the exclusive or is the sum of the two bits k, modulo 2. */
  lemma {:induction false} XorBits(a: nat, b: nat, k: nat)
    ensures Xor(a, b) / Pow2(k) % 2 == (a / Pow2(k) + b / Pow2(k)) % 2
    decreases k
  {
    hide Xor;
    XorStep(a, b);
    if k > 0 {
      XorBits(a / 2, b / 2, k - 1);
      DivideTwice(Xor(a, b), Pow2(k - 1));
      DivideTwice(a, Pow2(k - 1));
      DivideTwice(b, Pow2(k - 1));
      assert Xor(a, b) / 2 == Xor(a / 2, b / 2);
    }
  }

  lemma DivideTwice(n: nat, p: nat)
    requires p > 0
    ensures n / (2 * p) == n / 2 / p
  {
    var h := n / 2;
    var q, r := h / p, h % p;
    assert h == q * p + r;
    assert n == q * (2 * p) + (2 * r + n % 2) by { assert q * (2 * p) == 2 * (q * p); }
    Quotient(n, 2 * p, q, 2 * r + n % 2);
  }

  lemma OneMore(m: nat, q: nat, q': nat)
    requires q > q'
    ensures q * m >= q' * m + m
  {
    assert (q - q' - 1) * m >= 0;
    assert q * m == (q - q' - 1) * m + q' * m + m;
  }

  lemma Quotient(n: nat, m: nat, q: nat, r: nat)
    requires m > 0 && r < m && n == q * m + r
    ensures n / m == q
  {
    var q', r' := n / m, n % m;
    assert n == q' * m + r';
    if q' < q {
      OneMore(m, q, q');
    } else if q' > q {
      OneMore(m, q', q);
    }
  }

  lemma XorStep(a: nat, b: nat)
    ensures Xor(a, b) == 2 * Xor(a / 2, b / 2) + (a + b) % 2
    ensures Xor(0, 0) == 0
  {
  }

  lemma {:induction false} XorBound(a: nat, b: nat, bound: nat, bits: nat)
    requires bound == Pow2(bits) && a < bound && b < bound
    ensures Xor(a, b) < bound
    decreases bits
  {
    if bits == 0 {
      assert a == 0 && b == 0;
    } else {
      XorBound(a / 2, b / 2, Pow2(bits - 1), bits - 1);
    }
  }

  function Pow2(n: nat): (p: nat)
    ensures p > 0
  {
    if n == 0 then 1 else 2 * Pow2(n - 1)
  }

  function XorByte(a: u8, b: u8): (x: u8)
    ensures Xor(x, b) == a
  {
    assert Pow2(8) == 256 by { assert Pow2(4) == 16; }
    XorBound(a, b, 256, 8);
    XorSelfInverse(a, b);
    Xor(a, b)
  }
}
