/**
 The random number service itself: contexts updated in place and one list of those
 with a request pending, walked while entries are taken out of it. Every handler is
 proved to take the step of `HwrngSpec`.
 */
module HwrngService {
  import opened Bytes
  import opened CounterProvider
  import opened HwrngSpec
  import opened HwrngWalk
  import Lists

  /** `struct hwrng_chan_ctx` */
  class ChanCtx {
    var reqSize: nat
    var sendBlocked: bool

    constructor ()
      ensures reqSize == 0 && !sendBlocked
    {
      reqSize, sendBlocked := 0, false;
    }
  }

  class Service {
    const modulus: nat
    const rng: Device
    const rngData: array<byte>

    var reqList: seq<ChanCtx>

    /** The open channels' contexts; the service reaches each one through its channel's cookie. */
    ghost var open: set<ChanCtx>

    ghost function Chans(): map<ChanCtx, Chan>
      reads `open, open
    {
      map c | c in open :: Chan(c.reqSize, c.sendBlocked)
    }

    ghost function Abs(): State<ChanCtx>
      reads this, rng, open
    {
      State(reqList, Chans(), rng.drawn)
    }

    ghost predicate Valid()
      reads this, rng, open
    {
      && IsSizeModulus(modulus)
      && rngData.Length == MAX_MSG_SIZE
      && Inv<ChanCtx>(modulus, Abs())
    }

    constructor (modulus: nat, rng: Device)
      requires IsSizeModulus(modulus)
      ensures Valid() && fresh(rngData) && this.modulus == modulus && this.rng == rng
      ensures reqList == [] && open == {}
    {
      this.modulus, this.rng := modulus, rng;
      rngData := new byte[MAX_MSG_SIZE];
      reqList, open := [], {};
    }

    method CloseChan(ctx: ChanCtx)
      requires Valid() && ctx in open
      modifies `open, `reqList
      ensures open <= old(open) && Abs() == Close<ChanCtx>(old(Abs()), ctx)
    {
      RemoveFromList(ctx);
      open := open - {ctx};
      assert Chans() == old(Chans()) - {ctx};
    }

    method RemoveFromList(ctx: ChanCtx)
      modifies `reqList
      ensures reqList == Removed<ChanCtx>(old(reqList), ctx)
    {
      var i := 0;
      while i < |reqList| && reqList[i] != ctx
        invariant 0 <= i <= |reqList|
        invariant ctx !in reqList[..i]
      {
        i := i + 1;
      }
      RemovedFirst<ChanCtx>(reqList[..i], reqList[i..], ctx);
      assert reqList == reqList[..i] + reqList[i..];
      if i < |reqList| {
        reqList := reqList[..i] + reqList[i + 1..];
      }
    }

    /** One attempt to serve a channel; the list and the set of open channels are left to the caller. */
    method ServeChan(ctx: ChanCtx, attempt: Attempt) returns (fate: Fate, sent: seq<Message<ChanCtx>>)
      requires rngData.Length == MAX_MSG_SIZE
      modifies ctx, rng, rngData
      ensures var chan := old(Chan(ctx.reqSize, ctx.sendBlocked));
              && fate == FateOf(chan, attempt)
              && (!fate.Dropped? ==> Chan(ctx.reqSize, ctx.sendBlocked) == After(chan, fate))
              && rng.drawn == old(rng.drawn) + Consumed(chan, attempt)
              && sent == ReplyTo<ChanCtx>(rng.stream, old(rng.drawn), ctx, chan, attempt)
    {
      sent := [];
      if ctx.sendBlocked {
        return Skipped, sent;
      }
      var len := ctx.reqSize;
      if len > MAX_MSG_SIZE {
        len := MAX_MSG_SIZE;
      }
      var from := rng.drawn;
      rng.GetRngData(rngData, len, attempt.rngOk);
      if !attempt.rngOk {
        return Dropped, sent;
      }
      match attempt.send {
        case NotEnoughBuffer =>
          ctx.sendBlocked := true;
          return Held, sent;
        case SendError =>
          return Dropped, sent;
        case Sent =>
          sent := [Message(ctx, from, rngData[..len])];
          ctx.reqSize := ctx.reqSize - len;
          return Served, sent;
      }
    }

    /** Serves a channel, closing it if that fails. No other channel is touched. */
    method ServeOrClose(ctx: ChanCtx, attempt: Attempt) returns (fate: Fate, sent: seq<Message<ChanCtx>>)
      requires rngData.Length == MAX_MSG_SIZE && ctx in open
      modifies `open, ctx, rng, rngData
      ensures open <= old(open)
      ensures var chan := old(Chans())[ctx];
              && fate == FateOf(chan, attempt)
              && Chans() == (if fate.Dropped? then old(Chans()) - {ctx} else old(Chans())[ctx := After(chan, fate)])
              && (fate.Served? ==> ctx.reqSize == chan.reqSize - ChunkLen(chan))
              && rng.drawn == old(rng.drawn) + Consumed(chan, attempt)
              && sent == ReplyTo<ChanCtx>(rng.stream, old(rng.drawn), ctx, chan, attempt)
    {
      fate, sent := ServeChan(ctx, attempt);
      if fate.Dropped? {
        open := open - {ctx};
      }
    }

    /** The walk as it stands at index `i` of the list. */
    ghost function Now(i: nat, needMore: bool, sent: seq<Message<ChanCtx>>): WalkState<ChanCtx>
      requires i <= |reqList|
      reads this, open, rng
    {
      WalkState(reqList[..i], reqList[i..], Chans(), rng.drawn, needMore, sent)
    }

    method VisitNext(i: nat, env: map<ChanCtx, Attempt>, needMore: bool, sent: seq<Message<ChanCtx>>)
      returns (i': nat, needMore': bool, sent': seq<Message<ChanCtx>>)
      requires rngData.Length == MAX_MSG_SIZE && i < |reqList| && Ready<ChanCtx>(Now(i, needMore, sent))
      modifies `reqList, `open, open, rng, rngData
      ensures open <= old(open) && i' <= |reqList|
      ensures Now(i', needMore', sent') == Visit<ChanCtx>(rng.stream, env, old(Now(i, needMore, sent)))
    {
      var ctx := reqList[i];
      Lists.CutAt<ChanCtx>(reqList[..i], reqList[i..]);
      assert reqList == reqList[..i] + reqList[i..];
      var fate, reply := ServeOrClose(ctx, At<ChanCtx>(env, ctx));
      var more := fate.Served? && ctx.reqSize > 0;
      needMore', sent' := needMore || more, sent + reply;
      if fate.Skipped? || fate.Held? || more {
        i' := i + 1;
        assert reqList[..i + 1] == reqList[..i] + [ctx];
      } else {
        i' := i;
        reqList := reqList[..i] + reqList[i + 1..];
      }
    }

    /** Walks the request list once, taking out of it what is finished, failed or closed on the way. */
    method HandleReqQueue(env: map<ChanCtx, Attempt>) returns (needMore: bool, sent: seq<Message<ChanCtx>>)
      requires Valid()
      modifies `reqList, `open, open, rng, rngData
      ensures open <= old(open)
      ensures Outcome(Abs(), sent) == Pass<ChanCtx>(rng.stream, old(Abs()), env)
      ensures needMore <==> NeedMore<ChanCtx>(old(reqList), old(Chans()), env)
    {
      WalkIsPass<ChanCtx>(rng.stream, env, Abs());
      needMore, sent := false, [];
      var i := 0;
      ghost var start := Now(0, false, []);
      assert start == WalkState([], reqList, Chans(), rng.drawn, false, []);
      while i < |reqList|
        invariant 0 <= i <= |reqList| && open <= old(open) && Ready<ChanCtx>(Now(i, needMore, sent))
        invariant WalkOn<ChanCtx>(rng.stream, env, Now(i, needMore, sent)) == WalkOn<ChanCtx>(rng.stream, env, start)
        decreases |reqList| - i
      {
        i, needMore, sent := VisitNext(i, env, needMore, sent);
      }
      assert reqList[..i] == reqList;
    }

    /** Queues a request, or adds it to the one in progress. */
    method ChanHandleMsg(ctx: ChanCtx, len: nat)
      requires Valid() && ctx in open && len < 0x1_0000_0000
      modifies `reqList, ctx
      ensures Abs() == Extend<ChanCtx>(modulus, old(Abs()), ctx, len)
    {
      if ctx in reqList {
        ctx.reqSize := (ctx.reqSize + len) % modulus;
      } else {
        ctx.reqSize := len;
        reqList := reqList + [ctx];
      }
      assert Chans() == Extend<ChanCtx>(modulus, old(Abs()), ctx, len).chans;
    }

    method SendUnblocked(ctx: ChanCtx)
      requires ctx in open
      modifies ctx
      ensures Abs() == Unblock<ChanCtx>(old(Abs()), ctx, true)
    {
      ctx.sendBlocked := false;
      assert Chans() == old(Chans())[ctx := old(Chans())[ctx].(blocked := false)];
    }

    /** The event's own effect; the queue has not been kicked yet. */
    method Dispatch(ev: Event<ChanCtx>)
      requires Valid() && ev.ChanEvent? && Enabled<ChanCtx>(Abs(), ev)
      modifies `open, `reqList, ev.c
      ensures open <= old(open) && Abs() == BeforeKick<ChanCtx>(modulus, old(Abs()), ev)
    {
      if ev.hup {
        CloseChan(ev.c);
      } else {
        if ev.unblocked {
          UnblockKeepsInv<ChanCtx>(modulus, Abs(), ev.c);
          SendUnblocked(ev.c);
        }
        match ev.msg {
          case NoMessage =>
          case BadMessage => CloseChan(ev.c);
          case Req(len) => ChanHandleMsg(ev.c, len);
        }
      }
    }

    /** Any event on a channel ends with one pass over the queue; its verdict is not looked at. */
    method ChanHandler(ev: Event<ChanCtx>) returns (sent: seq<Message<ChanCtx>>)
      requires Valid() && ev.ChanEvent? && Enabled<ChanCtx>(Abs(), ev)
      modifies this, open, rng, rngData
      ensures Valid()
      ensures Outcome(Abs(), sent) == Step<ChanCtx>(modulus, rng.stream, old(Abs()), ev)
    {
      StepKeepsInv<ChanCtx>(modulus, rng.stream, Abs(), ev);
      BeforeKickKeepsInv<ChanCtx>(modulus, Abs(), ev);
      Dispatch(ev);
      var needMore;
      needMore, sent := HandleReqQueue(ev.env);
    }

    /** A connection that was accepted and could be set up. */
    method PortHandler(acceptOk: bool, allocOk: bool, cookieOk: bool) returns (ctx: ChanCtx?)
      requires Valid()
      modifies `open
      ensures Valid() && (ctx != null) == (acceptOk && allocOk && cookieOk)
      ensures ctx == null ==> Abs() == old(Abs())
      ensures ctx != null ==>
                && fresh(ctx) && ctx !in old(open)
                && Abs() == Step<ChanCtx>(modulus, rng.stream, old(Abs()), Connect(ctx)).st
    {
      ctx := null;
      if acceptOk && allocOk {
        var c := new ChanCtx();
        if cookieOk {
          open := open + {c};
          assert Chans() == old(Chans())[c := Chan(0, false)];
          StepKeepsInv<ChanCtx>(modulus, rng.stream, old(Abs()), Connect(c));
          ctx := c;
        }
      }
    }
  }
}
