/** The keybox service around the unwrap: message sizes, declared lengths and replies. */
module KeyboxService {
  import opened Bytes
  import opened BitOps
  import opened Keybox

  /** `sizeof(struct keybox_unwrap_req)`: one 64-bit length. */
  const UNWRAP_HEADER_SIZE: nat := 8

  const UINT64_MODULUS: nat := 0x1_0000_0000_0000_0000

  /** What follows the command: too short for the unwrap header, or the header and what comes after it. */
  datatype Body = Truncated(size: nat) | Full(declaredLen: nat, wrapped: seq<byte>)

  datatype Request = RecvFailed | Unwrap(body: Body) | Other(cmd: nat)

  /** Only a successful reply carries data. */
  datatype Response = Response(status: Status, data: seq<byte>)

  /** What fits the service's receive buffer, whose size is the port's message size as well. */
  ghost predicate Received(body: Body, maxSize: nat) {
    match body
    case Truncated(size) => size < UNWRAP_HEADER_SIZE
    case Full(declaredLen, wrapped) => declaredLen < UINT64_MODULUS && |wrapped| <= maxSize
  }

  /** The length in the message is the length of the message, and there is a checksum. */
  ghost predicate WellFramed(body: Body) {
    body.Full? && body.declaredLen == |body.wrapped| && |body.wrapped| >= 1
  }

  /** What a reply must be. */
  ghost predicate Answers(body: Body, rsp: Response) {
    && (rsp.status == Success <==> WellFramed(body) && XorAll(body.wrapped) == 0)
    && (rsp.status == UnwrapFail <==> WellFramed(body) && XorAll(body.wrapped) != 0)
    && (rsp.status == InvalidRequest <==> !WellFramed(body))
    && (if rsp.status == Success then Wrap(rsp.data) == body.wrapped else rsp.data == [])
    && (rsp.status == Success ==> Unmasked(rsp.data, body.wrapped))
  }

  method HandleUnwrap(body: Body, maxSize: nat, modulus: nat) returns (rsp: Response)
    requires Received(body, maxSize) && IsSizeModulus(modulus) && maxSize + UNWRAP_HEADER_SIZE < modulus
    ensures Answers(body, rsp)
    ensures rsp.status == Success ==>
              && |rsp.data| == |body.wrapped| - 1
              && forall j :: 0 <= j < |rsp.data| ==> rsp.data[j] == Xor(body.wrapped[j], 0x42)
  {
    var reqSize := if body.Truncated? then body.size else UNWRAP_HEADER_SIZE + |body.wrapped|;
    if reqSize < UNWRAP_HEADER_SIZE {
      return Response(InvalidRequest, []);
    }
    if body.declaredLen + UNWRAP_HEADER_SIZE >= UINT64_MODULUS {
      return Response(InvalidRequest, []);
    }
    var computedSize := body.declaredLen + UNWRAP_HEADER_SIZE;
    if computedSize != reqSize {
      return Response(InvalidRequest, []);
    }
    var output := new byte[maxSize];
    var len := body.declaredLen % modulus;
    assert len == body.declaredLen;
    assert output.Length >= len - 1;
    var status, plainLen := Keybox.Unwrap(body.wrapped[..len], output);
    assert body.wrapped[..len] == body.wrapped;
    if status != Success {
      return Response(status, []);
    }
    return Response(Success, output[..plainLen]);
  }

  /** One message: the reply, if one goes out, and whether the channel is then shut down. */
  method HandleMsg(req: Request, maxSize: nat, modulus: nat, sendOk: bool)
    returns (rsp: Option<Response>, shutdown: bool)
    requires req.Unwrap? ==> Received(req.body, maxSize)
    requires IsSizeModulus(modulus) && maxSize + UNWRAP_HEADER_SIZE < modulus
    ensures rsp.None? <==> req.RecvFailed?
    ensures req.Unwrap? ==> Answers(req.body, rsp.value)
    ensures req.Other? ==> rsp == Some(Response(InvalidRequest, []))
    ensures shutdown <==> req.RecvFailed? || !sendOk
  {
    match req {
      case RecvFailed =>
        return None, true;
      case Unwrap(body) =>
        var r := HandleUnwrap(body, maxSize, modulus);
        return Some(r), !sendOk;
      case Other(_) =>
        return Some(Response(InvalidRequest, [])), !sendOk;
    }
  }

  /** `struct keybox_chan_ctx`; a second `free` of it would be an error. */
  class ChanCtx {
    ghost var frees: nat

    constructor ()
      ensures frees == 0
    {
      frees := 0;
    }

    method Shutdown()
      modifies this
      ensures frees == old(frees) + 1
    {
      frees := frees + 1;
    }
  }

  /** Handling the message fails: it cannot be received, or its reply cannot be sent. */
  predicate MessageFails(msg: Option<Request>, sendOk: bool) {
    msg.Some? && (msg.value.RecvFailed? || !sendOk)
  }

  /**
   One event on a channel, which may carry a message, a hang-up, or both. A failed
   message and a hang-up each shut the channel down, so the context is freed at most
   once if and only if they do not come together.
   */
  method ChanHandler(ctx: ChanCtx, msg: Option<Request>, hup: bool, maxSize: nat, modulus: nat, sendOk: bool)
    returns (rsp: Option<Response>)
    requires ctx.frees == 0
    requires msg.Some? && msg.value.Unwrap? ==> Received(msg.value.body, maxSize)
    requires IsSizeModulus(modulus) && maxSize + UNWRAP_HEADER_SIZE < modulus
    modifies ctx
    ensures rsp.Some? <==> msg.Some? && !msg.value.RecvFailed?
    ensures rsp.Some? && msg.value.Unwrap? ==> Answers(msg.value.body, rsp.value)
    ensures ctx.frees == (if hup then 1 else 0) + (if MessageFails(msg, sendOk) then 1 else 0)
    ensures ctx.frees <= 1 <==> !(hup && MessageFails(msg, sendOk))
  {
    rsp := None;
    var failed := false;
    if msg.Some? {
      rsp, failed := HandleMsg(msg.value, maxSize, modulus, sendOk);
    }
    if hup {
      ctx.Shutdown();
    }
    if failed {
      ctx.Shutdown();
    }
  }

  /** An event that does free it twice: a message that cannot be received, and a hang-up. */
  method HangUpWithUnreadableMessage(ctx: ChanCtx)
    requires ctx.frees == 0
    modifies ctx
    ensures ctx.frees == 2
  {
    var rsp := ChanHandler(ctx, Some(RecvFailed), true, 0, 0x1_0000_0000, true);
  }

  /** The reply is determined by the request. */
  lemma AnswerIsUnique(body: Body, r: Response, r': Response)
    requires Answers(body, r) && Answers(body, r')
    ensures r == r'
  {
    if r.status == Success {
      WrapIsInjective(r.data, r'.data);
    }
  }

  /** Whoever wraps a keybox and sends it gets it back. */
  lemma WrappedIsUnwrapped(plain: seq<byte>, rsp: Response)
    requires Answers(Full(|plain| + 1, Wrap(plain)), rsp)
    ensures rsp == Response(Success, plain)
  {
    WrappedXorsToZero(plain);
    WrapIsInjective(rsp.data, plain);
  }

  /** Changing exactly one byte of a wrapped keybox, the checksum included, makes it fail. */
  lemma TamperedIsRejected(plain: seq<byte>, i: nat, b: byte, rsp: Response)
    requires i <= |plain| && b != Wrap(plain)[i]
    requires Answers(Full(|plain| + 1, Wrap(plain)[i := b]), rsp)
    ensures rsp == Response(UnwrapFail, [])
  {
    WrappedXorsToZero(plain);
    XorAllDetectsChange(Wrap(plain), i, b);
  }

  /**
   The explicit overflow test never decides anything: where the 64-bit sum wraps, it
   is smaller than any request that has a header, so the size comparison fails too.
   */
  lemma OverflowNeverMatches(declaredLen: nat, reqSize: nat)
    requires declaredLen < UINT64_MODULUS && UNWRAP_HEADER_SIZE <= reqSize < UINT64_MODULUS
    ensures (declaredLen + UNWRAP_HEADER_SIZE) % UINT64_MODULUS == reqSize <==>
            declaredLen + UNWRAP_HEADER_SIZE == reqSize
  {
  }
}
