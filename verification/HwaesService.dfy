/** The AES service at work: one cipher context, kept for the life of the process. */
module HwaesService {
  import opened Bytes
  import opened Cbc
  import opened Evp
  import opened HwaesSpec

  /** The context is set up for this request and nothing has been fed to it yet. */
  ghost predicate Prepared(ctx: CipherCtx, a: Args, key: seq<byte>)
    reads ctx
  {
    && Sized(ctx.prims) && Fits(a)
    && ctx.alg == Some(AlgOf(a.mode)) && ctx.encrypt == a.encrypt && !ctx.padding
    && ctx.key == key && ctx.iv == a.iv
    && ctx.aad == [] && ctx.text == [] && ctx.result == [] && ctx.expected == None
  }

  /** The context holds everything about the request, and its result. */
  ghost predicate Fed(ctx: CipherCtx, a: Args, key: seq<byte>)
    reads ctx
  {
    && Sized(ctx.prims) && Fits(a)
    && ctx.alg == Some(AlgOf(a.mode)) && ctx.encrypt == a.encrypt && !ctx.padding
    && ctx.key == key && ctx.iv == a.iv
    && ctx.aad == a.aad && ctx.text == a.textIn && ctx.result == Output(ctx.prims, a, key)
    && ctx.expected == (if a.tagIn == [] then None else Some(a.tagIn))
  }

  /** Passes on additional data, the expected tag and the text. */
  method Feed(ctx: CipherCtx, a: Args, ghost key: seq<byte>, textOut: array<byte>, fails: set<Call>)
    returns (ok: bool)
    requires Prepared(ctx, a, key) && textOut.Length == |a.textIn|
    requires a.mode.CbcMode? ==> a.aad == [] && a.tagIn == []
    requires a.encrypt ==> a.tagIn == []
    modifies ctx, textOut
    ensures ok == FeedWorks(a, fails)
    ensures ok ==> Fed(ctx, a, key) && |a.tagIn| <= BLOCK && textOut[..] == Output(ctx.prims, a, key)
    ensures !ok ==> textOut[..] == old(textOut[..])
  {
    if a.aad != [] {
      ok := ctx.UpdateAad(a.aad, UpdateAad !in fails);
      if !ok {
        return false;
      }
    }
    if a.tagIn != [] {
      ok := ctx.SetTag(a.tagIn, SetTag !in fails);
      if !ok {
        return false;
      }
    }
    var outLen;
    ok, outLen := ctx.Update(a.textIn, textOut, UpdateText !in fails);
    if ok {
      assert outLen == textOut.Length;
      assert a.textIn[..outLen] == a.textIn && textOut[..outLen] == textOut[..];
    }
  }

  lemma FinalMeansAccepted(ctx: CipherCtx, a: Args, key: seq<byte>)
    requires Fed(ctx, a, key) && |a.tagIn| <= BLOCK && !a.mode.OtherMode?
    requires a.mode.GcmMode? && !a.encrypt ==> a.tagIn != []
    ensures ctx.FinalSucceeds(AlgOf(a.mode)) <==> TagAccepted(ctx.prims, a, key)
  {
    if a.mode.GcmMode? && !a.encrypt {
      var t := FullTag(ctx.prims, a, key);
      assert a.tagIn <= t <==> t[..|a.tagIn|] == a.tagIn;
    }
  }

  /** Ends the operation and fetches the tag where one is wanted. */
  method Finish(ctx: CipherCtx, a: Args, ghost key: seq<byte>, tagOut: array<byte>, fails: set<Call>)
    returns (rc: Code)
    requires Fed(ctx, a, key) && |a.tagIn| <= BLOCK && !a.mode.OtherMode?
    requires a.mode.GcmMode? && !a.encrypt ==> a.tagIn != []
    requires tagOut.Length > 0 ==> a.mode.GcmMode? && a.encrypt
    modifies tagOut
    ensures Answer(rc, Output(ctx.prims, a, key), tagOut[..])
            == Finished(ctx.prims, a, key, old(tagOut[..]), fails)
  {
    var ok := ctx.Final(Final !in fails);
    FinalMeansAccepted(ctx, a, key);
    if !ok {
      return Generic;
    }
    if tagOut.Length > 0 {
      ok := ctx.GetTag(tagOut, GetTag !in fails);
      if !ok {
        return Generic;
      }
    }
    return Success;
  }

  method Compute(ctx: CipherCtx, a: Args, key: seq<byte>, textOut: array<byte>, tagOut: array<byte>, fails: set<Call>)
    returns (rc: Code)
    requires Sized(ctx.prims) && textOut != tagOut && textOut.Length == |a.textIn|
    requires CheckMode(a, key, tagOut.Length) == Success
    modifies ctx, textOut, tagOut
    ensures Answer(rc, textOut[..], tagOut[..])
            == Computed(ctx.prims, a, key, old(textOut[..]), old(tagOut[..]), fails)
  {
    ctx.Reset();
    var ok := ctx.InitAlg(AlgOf(a.mode), a.encrypt, InitAlg !in fails);
    if !ok {
      return Generic;
    }
    if |a.textIn| % BlockSize(AlgOf(a.mode)) != 0 || IvLength(AlgOf(a.mode)) != |a.iv| {
      return InvalidArgs;
    }
    ok := ctx.InitKey(key, a.iv, InitKey !in fails);
    if !ok {
      return Generic;
    }
    ok := ctx.DisablePadding(SetPadding !in fails);
    if !ok {
      return Generic;
    }
    ok := Feed(ctx, a, key, textOut, fails);
    if !ok {
      return Generic;
    }
    rc := Finish(ctx, a, key, tagOut, fails);
  }

  /**
   One operation. Its result is a function of the request alone: whatever earlier
   operations, successful or not, have left in the context plays no part.
   */
  method AesOp(ctx: CipherCtx, a: Args, textOut: array<byte>, tagOut: array<byte>, e: Env) returns (rc: Code)
    requires Sized(ctx.prims) && textOut != tagOut
    modifies ctx, textOut, tagOut
    ensures Answer(rc, textOut[..], tagOut[..])
            == HwaesSpec.AesOp(ctx.prims, a, old(textOut[..]), old(tagOut[..]), e)
  {
    if !a.noPadding {
      return NotImplemented;
    }
    if a.key == [] || a.textIn == [] || textOut.Length == 0 || |a.textIn| != textOut.Length {
      return InvalidArgs;
    }
    var key := a.key;
    if a.opaqueKey {
      if |key| > e.maxHandle || key[|key| - 1] != 0 {
        return InvalidArgs;
      }
      match e.fetched {
        case OpenFailed => return Generic;
        case Denied => return Io;
        case Key(k) => key := k;
      }
    }
    rc := CheckModeArgs(a, key, tagOut.Length);
    if rc == Success {
      rc := Compute(ctx, a, key, textOut, tagOut, e.fails);
    }
  }

  /** The checks that depend on the mode. */
  method CheckModeArgs(a: Args, key: seq<byte>, tagRoom: nat) returns (rc: Code)
    ensures rc == CheckMode(a, key, tagRoom)
  {
    match a.mode {
      case CbcMode =>
        if |key| != 16 && |key| != 32 {
          return InvalidArgs;
        }
        if a.aad != [] {
          return InvalidArgs;
        }
        if a.tagIn != [] || tagRoom != 0 {
          return InvalidArgs;
        }
      case GcmMode =>
        if |key| != 16 && |key| != 32 {
          return InvalidArgs;
        }
        if a.encrypt {
          if a.tagIn != [] || tagRoom == 0 {
            return InvalidArgs;
          }
        } else {
          if a.tagIn == [] || tagRoom != 0 {
            return InvalidArgs;
          }
        }
      case OtherMode =>
        return NotImplemented;
    }
    return Success;
  }
}
