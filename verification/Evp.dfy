/**
 The cipher context of the crypto library, as far as the services use it: selected,
 keyed, fed and finished step by step, with whatever earlier uses have left in it.
 */
module Evp {
  import opened Bytes
  import opened BitOps
  import opened Cbc

  datatype Alg = CbcAlg | GcmAlg

  function BlockSize(alg: Alg): nat {
    match alg case CbcAlg => BLOCK case GcmAlg => 1
  }

  function IvLength(alg: Alg): nat {
    match alg case CbcAlg => BLOCK case GcmAlg => 12
  }

  /** The part of a buffer that a mode can process at once. */
  function WholeLen(alg: Alg, n: nat): (m: nat)
    ensures m <= n && m % BlockSize(alg) == 0 && (n % BlockSize(alg) == 0 ==> m == n)
  {
    n - n % BlockSize(alg)
  }

  /** What the mode makes of a text; in counter mode both directions are the same. */
  function Crypt(p: Prims, alg: Alg, encrypt: bool, key: seq<byte>, iv: seq<byte>, text: seq<byte>): (r: seq<byte>)
    requires Sized(p) && |iv| == IvLength(alg) && |text| % BlockSize(alg) == 0
    ensures |r| == |text|
  {
    match alg
    case CbcAlg => if encrypt then Encrypt(p, key, iv, text) else Decrypt(p, key, iv, text)
    case GcmAlg => XorSeq(text, p.keystream(key, iv, |text|))
  }

  /** The authentication tag covers the ciphertext, which is input or output. */
  function Tag(p: Prims, encrypt: bool, key: seq<byte>, iv: seq<byte>, aad: seq<byte>,
                     text: seq<byte>, result: seq<byte>): seq<byte>
  {
    p.mac(key, iv, aad, if encrypt then result else text)
  }

  class CipherCtx {
    const prims: Prims

    var alg: Option<Alg>
    var encrypt: bool
    var padding: bool
    var key: seq<byte>
    var iv: seq<byte>
    var aad: seq<byte>
    var text: seq<byte>
    var result: seq<byte>
    var expected: Option<seq<byte>>

    constructor (prims: Prims)
      ensures this.prims == prims && Cleared()
    {
      this.prims := prims;
      alg, encrypt, padding := None, false, true;
      key, iv, aad, text, result, expected := [], [], [], [], [], None;
    }

    ghost predicate Cleared()
      reads this
    {
      alg.None? && padding && key == [] && iv == [] && aad == [] && text == [] && result == [] && expected.None?
    }

    method Reset()
      modifies this
      ensures Cleared()
    {
      alg, encrypt, padding := None, false, true;
      key, iv, aad, text, result, expected := [], [], [], [], [], None;
    }

    /** Selects the cipher, without a key yet. */
    method InitAlg(a: Alg, enc: bool, works: bool) returns (ok: bool)
      requires Cleared()
      modifies this
      ensures ok == works
      ensures ok ==> alg == Some(a) && encrypt == enc
      ensures key == [] && iv == [] && aad == [] && text == [] && result == [] && expected == None
    {
      if works {
        alg, encrypt := Some(a), enc;
      }
      return works;
    }

    method InitKey(k: seq<byte>, v: seq<byte>, works: bool) returns (ok: bool)
      requires alg.Some? && |v| == IvLength(alg.value)
      modifies `key, `iv
      ensures ok == works && (ok ==> key == k && iv == v)
    {
      if works {
        key, iv := k, v;
      }
      return works;
    }

    method DisablePadding(works: bool) returns (ok: bool)
      modifies `padding
      ensures ok == works && (ok ==> !padding)
    {
      if works {
        padding := false;
      }
      return works;
    }

    method UpdateAad(data: seq<byte>, works: bool) returns (ok: bool)
      requires alg == Some(GcmAlg) && text == []
      modifies `aad
      ensures ok == works && (ok ==> aad == old(aad) + data)
    {
      if works {
        aad := aad + data;
      }
      return works;
    }

    /** A tag to be checked has at most 16 bytes. */
    method SetTag(tag: seq<byte>, works: bool) returns (ok: bool)
      requires alg == Some(GcmAlg) && !encrypt && tag != []
      modifies `expected
      ensures ok == (works && |tag| <= BLOCK) && (ok ==> expected == Some(tag))
    {
      ok := works && |tag| <= BLOCK;
      if ok {
        expected := Some(tag);
      }
    }

    /**
     The first piece of text, with padding off: all whole blocks of it are processed,
     and what is left over stays inside the context.
     */
    method Update(input: seq<byte>, out: array<byte>, works: bool) returns (ok: bool, outLen: nat)
      requires Sized(prims) && alg.Some? && !padding && text == [] && |iv| == IvLength(alg.value)
      requires |input| <= out.Length
      modifies `text, `result, out
      ensures ok == works && (!ok ==> out[..] == old(out[..]))
      ensures ok ==>
                && outLen == WholeLen(alg.value, |input|) && text == input
                && result == Crypt(prims, alg.value, encrypt, key, iv, input[..outLen])
                && out[..outLen] == result && out[outLen..] == old(out[outLen..])
    {
      outLen := 0;
      if works {
        outLen := WholeLen(alg.value, |input|);
        var r := Crypt(prims, alg.value, encrypt, key, iv, input[..outLen]);
        Emit(r, out, outLen);
        text, result := input, r;
      }
      return works, outLen;
    }

    method Emit(r: seq<byte>, out: array<byte>, len: nat)
      requires |r| == len <= out.Length
      modifies out
      ensures out[..len] == r && out[len..] == old(out[len..])
    {
      forall i | 0 <= i < len {
        out[i] := r[i];
      }
    }

    /**
     With padding off nothing may be left over; an authenticated decryption also
     compares the expected tag, which may be a shortened one.
     */
    method Final(works: bool) returns (ok: bool)
      requires Sized(prims) && alg.Some? && !padding
      requires expected.Some? ==> |expected.value| <= BLOCK
      ensures ok == (works && FinalSucceeds(alg.value))
    {
      ok := works && FinalSucceeds(alg.value);
    }

    predicate FinalSucceeds(a: Alg)
      requires Sized(prims)
      requires expected.Some? ==> |expected.value| <= BLOCK
      reads this
    {
      match a
      case CbcAlg => |text| % BLOCK == 0
      case GcmAlg =>
        encrypt ||
        (expected.Some? && Tag(prims, encrypt, key, iv, aad, text, result)[..|expected.value|] == expected.value)
    }

    method GetTag(out: array<byte>, works: bool) returns (ok: bool)
      requires Sized(prims) && alg == Some(GcmAlg) && encrypt && out.Length > 0
      modifies out
      ensures ok == (works && out.Length <= BLOCK)
      ensures ok ==> out[..] == Tag(prims, encrypt, key, iv, aad, text, result)[..out.Length]
      ensures !ok ==> out[..] == old(out[..])
    {
      ok := works && out.Length <= BLOCK;
      if ok {
        Emit(Tag(prims, encrypt, key, iv, aad, text, result)[..out.Length], out, out.Length);
        assert out[..out.Length] == out[..];
      }
    }
  }
}
