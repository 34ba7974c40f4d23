/** The 8-bit digest of the software SPI device: rotate, then xor in the next byte. */
module Digest {
  import opened Bytes
  import opened BitOps

  function DigestOf(s: seq<byte>): byte {
    if s == [] then 0 else Xor(Ror(DigestOf(s[..|s| - 1])), s[|s| - 1])
  }

  method ComputeDigest(buf: array<byte>, sz: nat) returns (digest: byte)
    requires sz <= buf.Length
    ensures digest == DigestOf(buf[..sz])
  {
    digest := 0;
    var i := 0;
    while i < sz
      invariant 0 <= i <= sz && digest == DigestOf(buf[..i])
    {
      DigestSnoc(buf[..i], buf[i]);
      assert buf[..i + 1] == buf[..i] + [buf[i]];
      digest := Ror(digest);
      digest := Xor(digest, buf[i]);
      i := i + 1;
    }
  }

  lemma DigestSnoc(s: seq<byte>, b: byte)
    ensures DigestOf(s + [b]) == Xor(Ror(DigestOf(s)), b)
  {
    assert (s + [b])[..|s|] == s;
  }

  /** The digest of two buffers in a row. */
  lemma {:induction false} DigestAppend(s: seq<byte>, t: seq<byte>)
    ensures DigestOf(s + t) == Xor(RorBy(DigestOf(s), |t| % 8), DigestOf(t))
  {
    DigestAppendBy(s, t);
    RorByModulo8(DigestOf(s), |t|);
  }

  lemma {:induction false} DigestAppendBy(s: seq<byte>, t: seq<byte>)
    ensures DigestOf(s + t) == Xor(RorBy(DigestOf(s), |t|), DigestOf(t))
  {
    if t == [] {
      assert s + t == s;
      XorZero(DigestOf(s));
    } else {
      var front, last := t[..|t| - 1], t[|t| - 1];
      var turned := RorBy(DigestOf(s), |front|);
      assert s + t == (s + front) + [last];
      DigestSnoc(s + front, last);
      DigestAppendBy(s, front);
      RorIsLinear(turned, DigestOf(front));
      XorAssociates(Ror(turned), Ror(DigestOf(front)), last);
      assert RorBy(DigestOf(s), |t|) == Ror(turned);
    }
  }

  /** Byte `i` of an `n`-byte buffer enters the digest rotated by `(n - 1 - i) mod 8`. */
  function Turned(s: seq<byte>): (t: seq<byte>)
    ensures |t| == |s|
    ensures forall i :: 0 <= i < |s| ==> t[i] == RorBy(s[i], (|s| - 1 - i) % 8)
  {
    seq(|s|, i requires 0 <= i < |s| => RorBy(s[i], (|s| - 1 - i) % 8))
  }

  lemma {:induction false} DigestIsXorOfTurned(s: seq<byte>)
    ensures DigestOf(s) == XorAll(Turned(s))
  {
    if s != [] {
      var head, tail := [s[0]], s[1..];
      assert s == head + tail;
      DigestAppend(head, tail);
      DigestOfOne(s[0]);
      DigestIsXorOfTurned(tail);
      var turned := RorBy(s[0], |tail| % 8);
      TurnedCons(s[0], tail);
      XorAllAppend([turned], Turned(tail));
      XorAllOne(turned);
    }
  }

  lemma TurnedCons(b: byte, tail: seq<byte>)
    ensures Turned([b] + tail) == [RorBy(b, |tail| % 8)] + Turned(tail)
  {
    var s := [b] + tail;
    forall j | 0 <= j < |tail|
      ensures Turned(s)[1..][j] == Turned(tail)[j]
    {
      TurnedLater(b, tail, j);
    }
    assert Turned(s)[1..] == Turned(tail);
    assert Turned(s) == [Turned(s)[0]] + Turned(s)[1..];
  }

  /** A byte in front does not change how far the later ones are from the end. */
  lemma TurnedLater(b: byte, tail: seq<byte>, j: nat)
    requires j < |tail|
    ensures Turned([b] + tail)[j + 1] == Turned(tail)[j]
  {
    var s := [b] + tail;
    assert s[j + 1] == tail[j] && |s| - 1 - (j + 1) == |tail| - 1 - j;
  }

  lemma DigestOfOne(b: byte)
    ensures DigestOf([b]) == b
  {
    DigestSnoc([], b);
    RorOfZero();
    XorZero(b);
    assert [] + [b] == [b];
  }

  lemma RorOfZero()
    ensures Ror(0) == 0
  {
    XorSelf(0);
    RorIsLinear(0, 0);
    XorSelf(Ror(0));
  }

  lemma XorAllOne(b: byte)
    ensures XorAll([b]) == b
  {
    XorAllSnoc([], b);
    assert [] + [b] == [b];
    XorZero(b);
  }

  /** The digest is linear: xoring two buffers xors their digests. */
  lemma {:induction false} DigestIsLinear(s: seq<byte>, t: seq<byte>)
    requires |s| == |t|
    ensures DigestOf(XorSeq(s, t)) == Xor(DigestOf(s), DigestOf(t))
  {
    if s == [] {
      XorZero(0);
    } else {
      var n := |s| - 1;
      DigestIsLinear(s[..n], t[..n]);
      assert XorSeq(s, t) == XorSeq(s[..n], t[..n]) + [Xor(s[n], t[n])];
      DigestSnoc(XorSeq(s[..n], t[..n]), Xor(s[n], t[n]));
      RorIsLinear(DigestOf(s[..n]), DigestOf(t[..n]));
      XorExchange(Ror(DigestOf(s[..n])), Ror(DigestOf(t[..n])), s[n], t[n]);
    }
  }

  /** Changing any single byte changes the digest, whatever the length. */
  lemma DigestDetectsChange(s: seq<byte>, i: nat, b: byte)
    requires i < |s| && b != s[i]
    ensures DigestOf(s[i := b]) != DigestOf(s)
  {
    var before, after := s[..i], s[i + 1..];
    assert s == (before + [s[i]]) + after && s[i := b] == (before + [b]) + after;
    DigestAppendBy(before + [s[i]], after);
    DigestAppendBy(before + [b], after);
    DigestSnoc(before, s[i]);
    DigestSnoc(before, b);
    XorIsInjective(s[i], b, Ror(DigestOf(before)));
    RorByIsInjective(DigestOf(before + [s[i]]), DigestOf(before + [b]), |after|);
    XorIsInjective(RorBy(DigestOf(before + [s[i]]), |after|), RorBy(DigestOf(before + [b]), |after|), DigestOf(after));
  }
}
