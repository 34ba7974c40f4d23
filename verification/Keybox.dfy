/** Unwrapping a keybox: the last byte is the checksum of the others, which are masked. */
module Keybox {
  import opened Bytes
  import opened BitOps

  datatype Status = Success | InvalidRequest | UnwrapFail | InternalError

  const MASK: byte := 0x42

  function Masked(s: seq<byte>): (r: seq<byte>)
    ensures |r| == |s|
  {
    XorSeq(s, seq(|s|, _ => MASK))
  }

  /** How a keybox is wrapped; the service has only the other direction. */
  function Wrap(plain: seq<byte>): (wrapped: seq<byte>)
    ensures |wrapped| == |plain| + 1
  {
    Masked(plain) + [XorAll(Masked(plain))]
  }

  lemma MaskedTwice(s: seq<byte>)
    ensures Masked(Masked(s)) == s
  {
    XorSeqCancels(s, seq(|s|, _ => MASK));
  }

  /** Checksum and last byte agree exactly when all bytes together xor to zero. */
  lemma ChecksumMatches(wrapped: seq<byte>)
    requires wrapped != []
    ensures XorAll(wrapped[..|wrapped| - 1]) == wrapped[|wrapped| - 1] <==> XorAll(wrapped) == 0
  {
    var sum, last := XorAll(wrapped[..|wrapped| - 1]), wrapped[|wrapped| - 1];
    XorSelf(last);
    XorIsInjective(sum, last, last);
  }

  /** Unmasking what precedes a matching checksum is the one way back. */
  lemma WrapUndone(wrapped: seq<byte>)
    requires wrapped != [] && XorAll(wrapped) == 0
    ensures Wrap(Masked(wrapped[..|wrapped| - 1])) == wrapped
  {
    var front, last := wrapped[..|wrapped| - 1], wrapped[|wrapped| - 1];
    ChecksumMatches(wrapped);
    MaskedTwice(front);
    calc {
      Wrap(Masked(front));
      front + [XorAll(front)];
      front + [last];
      wrapped;
    }
  }

  lemma WrapIsInjective(p: seq<byte>, q: seq<byte>)
    ensures Wrap(p) == Wrap(q) ==> p == q
  {
    assert Wrap(p)[..|p|] == Masked(p) && Wrap(q)[..|q|] == Masked(q);
    MaskedTwice(p);
    MaskedTwice(q);
  }

  lemma WrappedXorsToZero(p: seq<byte>)
    ensures XorAll(Wrap(p)) == 0
  {
    assert Wrap(p)[..|p|] == Masked(p);
    ChecksumMatches(Wrap(p));
  }

  /** Every byte but the checksum, with two of its bits flipped. */
  ghost predicate Unmasked(plain: seq<byte>, wrapped: seq<byte>) {
    |plain| + 1 == |wrapped| && forall j :: 0 <= j < |plain| ==> plain[j] == Xor(wrapped[j], 0x42)
  }

  /** Wrapping is the other way about, and the checksum goes last. */
  lemma WrapUnmasks(plain: seq<byte>)
    ensures Unmasked(plain, Wrap(plain))
    ensures Wrap(plain)[|plain|] == XorAll(Wrap(plain)[..|plain|])
  {
    var wrapped := Wrap(plain);
    assert wrapped[..|plain|] == Masked(plain);
    MaskedTwice(plain);
    forall j | 0 <= j < |plain|
      ensures plain[j] == Xor(wrapped[j], 0x42)
    {
      assert Masked(Masked(plain))[j] == Xor(Masked(plain)[j], MASK);
    }
  }

  method XorLoop(s: seq<byte>) returns (checksum: byte)
    ensures checksum == XorAll(s)
  {
    checksum := 0;
    var i := 0;
    while i < |s|
      invariant 0 <= i <= |s| && checksum == XorAll(s[..i])
    {
      XorAllSnoc(s[..i], s[i]);
      assert s[..i + 1] == s[..i] + [s[i]];
      checksum := Xor(checksum, s[i]);
      i := i + 1;
    }
    assert s[..i] == s;
  }

  /** The plaintext, on success, is what wraps to the input; nothing is written otherwise. */
  method Unwrap(wrapped: seq<byte>, plaintext: array<byte>) returns (status: Status, len: nat)
    modifies plaintext
    ensures status == (if |wrapped| < 1 || plaintext.Length < |wrapped| - 1 then InvalidRequest
                       else if XorAll(wrapped) != 0 then UnwrapFail
                       else Success)
    ensures len <= plaintext.Length
    ensures status == Success ==> Wrap(plaintext[..len]) == wrapped && plaintext[len..] == old(plaintext[len..])
    ensures status == Success ==> Unmasked(plaintext[..len], wrapped)
    ensures status != Success ==> plaintext[..] == old(plaintext[..])
  {
    len := 0;
    if |wrapped| < 1 || plaintext.Length < |wrapped| - 1 {
      return InvalidRequest, len;
    }
    var n := |wrapped| - 1;
    var checksum := XorLoop(wrapped[..n]);
    ChecksumMatches(wrapped);
    if checksum != wrapped[n] {
      return UnwrapFail, len;
    }
    var i := 0;
    while i < n
      invariant 0 <= i <= n
      invariant forall j :: 0 <= j < i ==> plaintext[j] == Xor(wrapped[j], MASK)
      invariant plaintext[n..] == old(plaintext[n..])
    {
      plaintext[i] := Xor(wrapped[i], MASK);
      i := i + 1;
    }
    len := n;
    assert plaintext[..len] == Masked(wrapped[..n]);
    WrapUndone(wrapped);
    return Success, len;
  }
}
