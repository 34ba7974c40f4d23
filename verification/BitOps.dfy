/** Exclusive or and rotation of bytes, and the laws the checksums rest on. */
module BitOps {
  import opened Bytes

  function Pow2(k: nat): (p: nat)
    ensures p > 0
  {
    if k == 0 then 1 else 2 * Pow2(k - 1)
  }

  lemma ByteWidth()
    ensures Pow2(7) == 128 && Pow2(8) == 256
  {
    assert Pow2(4) == 16;
  }

  // ----- exclusive or

  /** The exclusive or of the lowest `width` bits, lowest bit first. */
  function XorBits(a: nat, b: nat, width: nat): (x: nat)
    decreases width, a, b
  {
    if width == 0 then 0 else (if a % 2 == b % 2 then 0 else 1) + 2 * XorBits(a / 2, b / 2, width - 1)
  }

  lemma {:induction false} XorBitsFits(a: nat, b: nat, width: nat)
    ensures XorBits(a, b, width) < Pow2(width)
    decreases width
  {
    if width > 0 {
      XorBitsFits(a / 2, b / 2, width - 1);
    }
  }

  lemma XorFitsByte(a: byte, b: byte)
    ensures XorBits(a as nat, b as nat, 8) < 256
  {
    XorBitsFits(a as nat, b as nat, 8);
    ByteWidth();
  }

  /** `a ^ b` */
  function Xor(a: byte, b: byte): byte {
    XorFitsByte(a, b);
    XorBits(a as nat, b as nat, 8) as byte
  }

  /** Bit `k` of a number, counted from the lowest. */
  function Bit(a: nat, k: nat): nat
    decreases k
  {
    if k == 0 then a % 2 else Bit(a / 2, k - 1)
  }

  /** The bits of the exclusive or are those in which the two numbers differ. */
  lemma {:induction false} BitOfXorBits(a: nat, b: nat, width: nat, k: nat)
    requires k < width
    ensures Bit(XorBits(a, b, width), k) == if Bit(a, k) == Bit(b, k) then 0 else 1
    decreases k
  {
    if k > 0 {
      BitOfXorBits(a / 2, b / 2, width - 1, k - 1);
    }
  }

  lemma BitOfXor(a: byte, b: byte, k: nat)
    requires k < 8
    ensures Bit(Xor(a, b) as nat, k) == if Bit(a as nat, k) == Bit(b as nat, k) then 0 else 1
  {
    BitOfXorBits(a as nat, b as nat, 8, k);
  }

  lemma {:induction false} XorBitsCommutes(a: nat, b: nat, width: nat)
    ensures XorBits(a, b, width) == XorBits(b, a, width)
    decreases width
  {
    if width > 0 {
      XorBitsCommutes(a / 2, b / 2, width - 1);
    }
  }

  lemma {:induction false} XorBitsAssociates(a: nat, b: nat, c: nat, width: nat)
    ensures XorBits(XorBits(a, b, width), c, width) == XorBits(a, XorBits(b, c, width), width)
    decreases width
  {
    if width > 0 {
      var ab, bc := XorBits(a, b, width), XorBits(b, c, width);
      assert ab / 2 == XorBits(a / 2, b / 2, width - 1) && bc / 2 == XorBits(b / 2, c / 2, width - 1);
      XorBitsAssociates(a / 2, b / 2, c / 2, width - 1);
    }
  }

  lemma {:induction false} XorBitsZero(a: nat, width: nat)
    requires a < Pow2(width)
    ensures XorBits(a, 0, width) == a
    decreases width
  {
    if width > 0 {
      XorBitsZero(a / 2, width - 1);
    }
  }

  lemma {:induction false} XorBitsSelf(a: nat, width: nat)
    ensures XorBits(a, a, width) == 0
    decreases width
  {
    if width > 0 {
      XorBitsSelf(a / 2, width - 1);
    }
  }

  lemma XorCommutes(a: byte, b: byte)
    ensures Xor(a, b) == Xor(b, a)
  {
    XorBitsCommutes(a as nat, b as nat, 8);
  }

  lemma XorAssociates(a: byte, b: byte, c: byte)
    ensures Xor(Xor(a, b), c) == Xor(a, Xor(b, c))
  {
    XorBitsAssociates(a as nat, b as nat, c as nat, 8);
  }

  lemma XorZero(a: byte)
    ensures Xor(a, 0) == a && Xor(0, a) == a
  {
    ByteWidth();
    XorBitsZero(a as nat, 8);
    XorCommutes(a, 0);
  }

  lemma XorSelf(a: byte)
    ensures Xor(a, a) == 0
  {
    XorBitsSelf(a as nat, 8);
  }

  /** Applying the same byte twice undoes it, from either side. */
  lemma XorCancels(a: byte, b: byte)
    ensures Xor(Xor(a, b), b) == a && Xor(a, Xor(a, b)) == b
  {
    XorAssociates(a, b, b);
    XorAssociates(a, a, b);
    XorSelf(a);
    XorSelf(b);
    XorZero(a);
    XorZero(b);
  }

  lemma XorIsInjective(a: byte, b: byte, c: byte)
    ensures Xor(a, c) == Xor(b, c) <==> a == b
    ensures Xor(c, a) == Xor(c, b) <==> a == b
  {
    XorCancels(a, c);
    XorCancels(b, c);
    XorCommutes(a, c);
    XorCommutes(b, c);
  }

  /** `(a ^ b) ^ (c ^ d) == (a ^ c) ^ (b ^ d)` */
  lemma XorExchange(a: byte, b: byte, c: byte, d: byte)
    ensures Xor(Xor(a, b), Xor(c, d)) == Xor(Xor(a, c), Xor(b, d))
  {
    XorAssociates(a, b, Xor(c, d));
    XorAssociates(b, c, d);
    XorCommutes(b, c);
    XorAssociates(c, b, d);
    XorAssociates(a, c, Xor(b, d));
  }

  // ----- folding a buffer

  /** All bytes of a buffer xored together. */
  function XorAll(s: seq<byte>): byte {
    if s == [] then 0 else Xor(XorAll(s[..|s| - 1]), s[|s| - 1])
  }

  lemma XorAllSnoc(s: seq<byte>, b: byte)
    ensures XorAll(s + [b]) == Xor(XorAll(s), b)
  {
    assert (s + [b])[..|s|] == s;
  }

  lemma {:induction false} XorAllAppend(s: seq<byte>, t: seq<byte>)
    ensures XorAll(s + t) == Xor(XorAll(s), XorAll(t))
  {
    if t == [] {
      assert s + t == s;
      XorZero(XorAll(s));
    } else {
      var front, last := t[..|t| - 1], t[|t| - 1];
      assert s + t == (s + front) + [last];
      XorAllSnoc(s + front, last);
      XorAllAppend(s, front);
      XorAssociates(XorAll(s), XorAll(front), last);
    }
  }

  /** Changing one byte always changes the result. */
  lemma XorAllDetectsChange(s: seq<byte>, i: nat, b: byte)
    requires i < |s| && b != s[i]
    ensures XorAll(s[i := b]) != XorAll(s)
  {
    assert s == s[..i] + [s[i]] + s[i + 1..];
    assert s[i := b] == s[..i] + [b] + s[i + 1..];
    XorAllAppend(s[..i] + [s[i]], s[i + 1..]);
    XorAllAppend(s[..i] + [b], s[i + 1..]);
    XorAllSnoc(s[..i], s[i]);
    XorAllSnoc(s[..i], b);
    XorIsInjective(s[i], b, XorAll(s[..i]));
    XorIsInjective(XorAll(s[..i] + [s[i]]), XorAll(s[..i] + [b]), XorAll(s[i + 1..]));
  }

  /** Buffers of the same length, xored byte by byte. */
  function XorSeq(s: seq<byte>, t: seq<byte>): (r: seq<byte>)
    requires |s| == |t|
    ensures |r| == |s|
    ensures forall i :: 0 <= i < |s| ==> r[i] == Xor(s[i], t[i])
  {
    seq(|s|, i requires 0 <= i < |s| => Xor(s[i], t[i]))
  }

  lemma XorSeqCancels(s: seq<byte>, t: seq<byte>)
    requires |s| == |t|
    ensures XorSeq(XorSeq(s, t), t) == s
  {
    forall i | 0 <= i < |s|
      ensures XorSeq(XorSeq(s, t), t)[i] == s[i]
    {
      XorCancels(s[i], t[i]);
    }
  }

  // ----- rotation

  /** `x >> 1 | (x & 1) << 7`: the lowest bit goes to the top, all others move down. */
  function Ror(x: byte): byte {
    x / 2 + 128 * (x % 2)
  }

  function RorBy(x: byte, k: nat): byte
    decreases k, x
  {
    if k == 0 then x else Ror(RorBy(x, k - 1))
  }

  lemma {:induction false} RorByAdd(x: byte, j: nat, k: nat)
    ensures RorBy(RorBy(x, j), k) == RorBy(x, j + k)
  {
    if k > 0 {
      RorByAdd(x, j, k - 1);
    }
  }

  lemma RorOfSplit(h: nat, b: nat, x: byte)
    requires h < 128 && b < 2 && x as nat == 2 * h + b
    ensures Ror(x) as nat == h + 128 * b
  {
  }

  lemma RorByStep(x: byte, k: nat)
    ensures RorBy(x, k + 1) == Ror(RorBy(x, k))
  {
  }

  lemma RorByFour(x: byte)
    ensures RorBy(x, 4) == Ror(Ror(Ror(Ror(x))))
  {
    RorByStep(x, 0);
    RorByStep(x, 1);
    RorByStep(x, 2);
    RorByStep(x, 3);
  }

  /** Where the four lower bits of a byte go. */
  lemma RorMoves(h: nat, b0: nat, b1: nat, b2: nat, b3: nat, x: byte)
    requires h < 16 && b0 < 2 && b1 < 2 && b2 < 2 && b3 < 2
    requires x as nat == 16 * h + 8 * b3 + 4 * b2 + 2 * b1 + b0
    ensures Ror(Ror(Ror(Ror(x)))) as nat == h + 16 * (8 * b3 + 4 * b2 + 2 * b1 + b0)
  {
    RorOfSplit(8 * h + 4 * b3 + 2 * b2 + b1, b0, x);
    RorOfSplit(64 * b0 + 4 * h + 2 * b3 + b2, b1, Ror(x));
    RorOfSplit(64 * b1 + 32 * b0 + 2 * h + b3, b2, Ror(Ror(x)));
    RorOfSplit(64 * b2 + 32 * b1 + 16 * b0 + h, b3, Ror(Ror(Ror(x))));
  }

  lemma FourBits(n: nat) returns (b0: nat, b1: nat, b2: nat, b3: nat)
    requires n < 16
    ensures b0 < 2 && b1 < 2 && b2 < 2 && b3 < 2 && n == 8 * b3 + 4 * b2 + 2 * b1 + b0
  {
    var n1 := n / 2;
    var n2 := n1 / 2;
    b0, b1, b2, b3 := n - 2 * n1, n1 - 2 * n2, n2 % 2, n2 / 2;
  }

  /** Four rotations swap the two halves of a byte. */
  lemma HalvesSwap(h: nat, lo: nat, x: byte)
    requires h < 16 && lo < 16 && x as nat == 16 * h + lo
    ensures RorBy(x, 4) as nat == 16 * lo + h
  {
    var b0, b1, b2, b3 := FourBits(lo);
    RorByFour(x);
    RorMoves(h, b0, b1, b2, b3, x);
  }

  /** Eight rotations bring a byte back. */
  lemma FullTurn(x: byte)
    ensures RorBy(x, 8) == x
  {
    var n := x as nat;
    HalvesSwap(n / 16, n % 16, x);
    HalvesSwap(n % 16, n / 16, RorBy(x, 4));
    RorByAdd(x, 4, 4);
  }

  lemma {:induction false} RorByTurns(x: byte, turns: nat, k: nat)
    ensures RorBy(x, 8 * turns + k) == RorBy(x, k)
    decreases turns
  {
    if turns > 0 {
      var rest := 8 * (turns - 1) + k;
      RorByAdd(x, 8, rest);
      FullTurn(x);
      RorByTurns(x, turns - 1, k);
      assert 8 * turns + k == 8 + rest;
    }
  }

  lemma RorByModulo8(x: byte, k: nat)
    ensures RorBy(x, k) == RorBy(x, k % 8)
  {
    RorByTurns(x, k / 8, k % 8);
    assert 8 * (k / 8) + k % 8 == k;
  }

  lemma RorIsInjective(a: byte, b: byte)
    ensures Ror(a) == Ror(b) <==> a == b
  {
  }

  lemma {:induction false} RorByIsInjective(a: byte, b: byte, k: nat)
    ensures RorBy(a, k) == RorBy(b, k) <==> a == b
  {
    if k > 0 {
      RorByIsInjective(a, b, k - 1);
      RorIsInjective(RorBy(a, k - 1), RorBy(b, k - 1));
    }
  }

  /** The lowest bits `p` and `q` and the rest of two numbers. */
  lemma XorCons(a: nat, g: nat, p: nat, b: nat, h: nat, q: nat, width: nat, wider: nat)
    requires p < 2 && q < 2 && a == 2 * g + p && b == 2 * h + q && wider == width + 1
    ensures XorBits(a, b, wider) == (if p == q then 0 else 1) + 2 * XorBits(g, h, width)
  {
    assert a / 2 == g && a % 2 == p && b / 2 == h && b % 2 == q;
  }

  /** Halving a number with a bit on top halves both. */
  lemma HalveWithTop(a: nat, p: nat, top: nat, half: nat) returns (g: nat, low: nat, halfP: nat)
    requires a < top && top == 2 * half && (p == 0 || p == top)
    ensures a == 2 * g + low && a + p == 2 * (g + halfP) + low && low < 2 && g < half
    ensures halfP == if p == 0 then 0 else half
  {
    g, low, halfP := a / 2, a % 2, if p == 0 then 0 else half;
  }

  /** From the rest of two numbers, with and without a bit on top, to the numbers themselves. */
  lemma XorBitsTopStep(a: nat, g: nat, p0: nat, b: nat, h: nat, q0: nat, a': nat, g': nat, b': nat, h': nat,
                       differ: nat, less: nat, width: nat, wider: nat)
    requires width == less + 1 && wider == width + 1 && p0 < 2 && q0 < 2
    requires a == 2 * g + p0 && b == 2 * h + q0 && a' == 2 * g' + p0 && b' == 2 * h' + q0
    requires XorBits(g', h', width) == XorBits(g, h, less) + differ
    ensures XorBits(a', b', wider) == XorBits(a, b, width) + 2 * differ
  {
    XorCons(a, g, p0, b, h, q0, less, width);
    XorCons(a', g', p0, b', h', q0, width, wider);
  }

  lemma XorOneBit(p: nat, q: nat)
    requires p < 2 && q < 2
    ensures XorBits(p, q, 1) == if p != q then 1 else 0
  {
    XorCons(p, 0, p, q, 0, q, 0, 1);
  }

  /** A bit on top of the lower ones, present in `a` if `p` and in `b` if `q`, is xored on its own. */
  lemma {:induction false} XorBitsTop(a: nat, b: nat, p: nat, q: nat, top: nat, width: nat, wider: nat)
    requires a < top && b < top && top == Pow2(width) && wider == width + 1
    requires (p == 0 || p == top) && (q == 0 || q == top)
    ensures XorBits(a + p, b + q, wider) == XorBits(a, b, width) + if p != q then top else 0
    decreases width
  {
    if width == 0 {
      XorOneBit(a + p, b + q);
    } else {
      var less, half := width - 1, Pow2(width - 1);
      var g, p0, halfP := HalveWithTop(a, p, top, half);
      var h, q0, halfQ := HalveWithTop(b, q, top, half);
      XorBitsTop(g, h, halfP, halfQ, half, less, width);
      XorBitsTopStep(a, g, p0, b, h, q0, a + p, g + halfP, b + q, h + halfQ,
                     if p != q then half else 0, less, width, wider);
    }
  }

  lemma XorOfRotated(g: nat, p: nat, h: nat, q: nat)
    requires g < 128 && h < 128 && p < 2 && q < 2
    ensures XorBits(g + 128 * p, h + 128 * q, 8) == XorBits(g, h, 7) + 128 * (if p == q then 0 else 1)
  {
    ByteWidth();
    XorBitsTop(g, h, 128 * p, 128 * q, 128, 7, 8);
  }

  lemma RorIsLinear(a: byte, b: byte)
    ensures Ror(Xor(a, b)) == Xor(Ror(a), Ror(b))
  {
    var g, p, h, q := a as nat / 2, a as nat % 2, b as nat / 2, b as nat % 2;
    RorOfSplit(g, p, a);
    RorOfSplit(h, q, b);
    XorFitsByte(a, b);
    RorOfSplit(XorBits(g, h, 7), if p == q then 0 else 1, Xor(a, b));
    XorOfRotated(g, p, h, q);
  }
}
