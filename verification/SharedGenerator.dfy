/**
 Both services run in one process and draw from one generator. Whatever they hand
 out, replies and tokens alike, comes from pieces of its output that never overlap.
 */
module SharedGenerator {
  import opened Bytes
  import opened CounterProvider
  import opened AccessToken
  import K = HwkeySpec
  import H = HwkeyRuns
  import R = HwrngSpec

  datatype System<S, C> = System(key: K.State<S>, rng: R.State<C>)

  datatype SystemEvent<S, C> = KeyEvent(key: K.Event<S>) | RngEvent(rng: R.Event<C>)

  /** A piece of the generator's output that was put to use. */
  datatype Use = Use(from: nat, data: seq<byte>)

  datatype Outcome<S, C> = Outcome(sys: System<S, C>, uses: seq<Use>)

  datatype Setup = Setup(cfg: K.Config, modulus: nat)

  ghost predicate Ok<S, C>(p: Setup, sys: System<S, C>) {
    && IsSizeModulus(p.modulus)
    && R.Inv(p.modulus, sys.rng)
    && sys.key.drawn == sys.rng.drawn
  }

  ghost predicate Enabled<S, C>(sys: System<S, C>, p: Setup, ev: SystemEvent<S, C>) {
    match ev
    case KeyEvent(e) => !e.OthersDraw? && K.Enabled(p.cfg, sys.key, e)
    case RngEvent(e) => !e.OthersDraw? && R.Enabled(sys.rng, e)
  }

  /** The draw a token was made of, if this event made one. */
  ghost function TokenUses<S>(c: K.Config, st: K.State<S>, ev: K.Event<S>): seq<Use>
    requires K.Enabled(c, st, ev)
  {
    if ev.Request? && ev.cmd.GetKeyslot? && ev.env.script.ok &&
       K.DrawsToken(c, st, st.sessions[ev.s], CString(ev.cmd.payload), ev.env) then
      [Use(st.drawn + DRAW_SIZE * ev.env.script.rejected, Draw(c.stream, st.drawn, ev.env.script.rejected))]
    else
      []
  }

  ghost function MessageUses<C>(sent: seq<R.Message<C>>): (uses: seq<Use>)
    ensures |uses| == |sent|
  {
    seq(|sent|, i requires 0 <= i < |sent| => Use(sent[i].from, sent[i].data))
  }

  ghost function Step<S, C>(p: Setup, sys: System<S, C>, ev: SystemEvent<S, C>): Outcome<S, C>
    requires Ok(p, sys) && Enabled(sys, p, ev)
  {
    match ev
    case KeyEvent(e) =>
      var o := K.Step(p.cfg, sys.key, e);
      Outcome(System(o.st, sys.rng.(drawn := o.st.drawn)), TokenUses(p.cfg, sys.key, e))
    case RngEvent(e) =>
      var o := R.Step(p.modulus, p.cfg.stream, sys.rng, e);
      Outcome(System(sys.key.(drawn := o.st.drawn), o.st), MessageUses(o.sent))
  }

  /** The uses are windows of the stream, one after the other, between `lo` and `hi`. */
  ghost predicate InOrder(stream: nat -> byte, uses: seq<Use>, lo: nat, hi: nat) {
    && lo <= hi
    && (forall i :: 0 <= i < |uses| ==>
          && lo <= uses[i].from && uses[i].from + |uses[i].data| <= hi
          && uses[i].data == Window(stream, uses[i].from, |uses[i].data|))
    && (forall i, j :: 0 <= i < j < |uses| ==> uses[i].from + |uses[i].data| <= uses[j].from)
  }

  lemma InOrderAppend(stream: nat -> byte, a: seq<Use>, b: seq<Use>, lo: nat, mid: nat, hi: nat)
    requires InOrder(stream, a, lo, mid) && InOrder(stream, b, mid, hi)
    ensures InOrder(stream, a + b, lo, hi)
  {
  }

  lemma {:induction false} RepliesInOrder<C>(stream: nat -> byte, drawn: nat, queue: seq<C>,
                                             chans: map<C, R.Chan>, env: map<C, R.Attempt>, k: nat)
    requires R.Known(queue, chans) && k <= |queue|
    ensures InOrder(stream, MessageUses(R.Replies(stream, drawn, queue, chans, env, k)),
                    drawn, drawn + R.TotalConsumed(queue, chans, env, k))
  {
    if k > 0 {
      RepliesInOrder(stream, drawn, queue, chans, env, k - 1);
      var c := queue[k - 1];
      var before := R.Replies(stream, drawn, queue, chans, env, k - 1);
      var from, to := drawn + R.TotalConsumed(queue, chans, env, k - 1), drawn + R.TotalConsumed(queue, chans, env, k);
      var reply := R.ReplyTo(stream, from, c, chans[c], R.At(env, c));
      OneReplyInOrder(stream, from, to, c, chans[c], R.At(env, c));
      MessagesInOrder(stream, before, reply, drawn, from, to);
      assert R.Replies(stream, drawn, queue, chans, env, k) == before + reply;
    }
  }

  lemma MessagesInOrder<C>(stream: nat -> byte, a: seq<R.Message<C>>, b: seq<R.Message<C>>, lo: nat, mid: nat, hi: nat)
    requires InOrder(stream, MessageUses(a), lo, mid) && InOrder(stream, MessageUses(b), mid, hi)
    ensures InOrder(stream, MessageUses(a + b), lo, hi)
  {
    InOrderAppend(stream, MessageUses(a), MessageUses(b), lo, mid, hi);
    assert MessageUses(a + b) == MessageUses(a) + MessageUses(b);
  }

  lemma OneReplyInOrder<C>(stream: nat -> byte, from: nat, to: nat, c: C, chan: R.Chan, attempt: R.Attempt)
    requires to == from + R.Consumed(chan, attempt)
    ensures InOrder(stream, MessageUses(R.ReplyTo(stream, from, c, chan, attempt)), from, to)
  {
  }

  lemma RngStepInOrder<C>(modulus: nat, stream: nat -> byte, st: R.State<C>, ev: R.Event<C>)
    requires IsSizeModulus(modulus) && R.Inv(modulus, st) && R.Enabled(st, ev)
    ensures var o := R.Step(modulus, stream, st, ev);
            R.Inv(modulus, o.st) && InOrder(stream, MessageUses(o.sent), st.drawn, o.st.drawn)
  {
    R.StepKeepsInv(modulus, stream, st, ev);
    if ev.ChanEvent? {
      R.BeforeKickKeepsInv(modulus, st, ev);
      var st1 := R.BeforeKick(modulus, st, ev);
      RepliesInOrder(stream, st1.drawn, st1.queue, st1.chans, ev.env, |st1.queue|);
    }
  }

  lemma KeyStepInOrder<S>(c: K.Config, st: K.State<S>, ev: K.Event<S>)
    requires K.Enabled(c, st, ev)
    ensures InOrder(c.stream, TokenUses(c, st, ev), st.drawn, K.Step(c, st, ev).st.drawn)
  {
  }

  lemma StepInOrder<S, C>(p: Setup, sys: System<S, C>, ev: SystemEvent<S, C>)
    requires Ok(p, sys) && Enabled(sys, p, ev)
    ensures var o := Step(p, sys, ev);
            && Ok(p, o.sys)
            && InOrder(p.cfg.stream, o.uses, sys.key.drawn, o.sys.key.drawn)
  {
    match ev {
      case KeyEvent(e) => KeyStepInOrder(p.cfg, sys.key, e);
      case RngEvent(e) => RngStepInOrder(p.modulus, p.cfg.stream, sys.rng, e);
    }
  }

  ghost predicate Runs<S, C>(p: Setup, sys: System<S, C>, evs: seq<SystemEvent<S, C>>)
    requires Ok(p, sys)
    decreases |evs|
  {
    evs == [] ||
    (Enabled(sys, p, evs[0]) &&
     (StepInOrder(p, sys, evs[0]); Runs(p, Step(p, sys, evs[0]).sys, evs[1..])))
  }

  ghost function Run<S, C>(p: Setup, sys: System<S, C>, evs: seq<SystemEvent<S, C>>): Outcome<S, C>
    requires Ok(p, sys) && Runs(p, sys, evs)
    decreases |evs|
  {
    if evs == [] then
      Outcome(sys, [])
    else
      StepInOrder(p, sys, evs[0]);
      var first := Step(p, sys, evs[0]);
      var rest := Run(p, first.sys, evs[1..]);
      Outcome(rest.sys, first.uses + rest.uses)
  }

  /**
   In every run of the two services, all replies and all tokens are cut from the
   generator's output in order and without overlap, even where a chunk was dropped
   because it could not be sent or a draw was rejected or failed.
   */
  lemma {:induction false} RunInOrder<S, C>(p: Setup, sys: System<S, C>, evs: seq<SystemEvent<S, C>>)
    requires Ok(p, sys) && Runs(p, sys, evs)
    ensures var o := Run(p, sys, evs);
            InOrder(p.cfg.stream, o.uses, sys.key.drawn, o.sys.key.drawn)
    decreases |evs|
  {
    if evs != [] {
      StepInOrder(p, sys, evs[0]);
      var first := Step(p, sys, evs[0]);
      var rest := Run(p, first.sys, evs[1..]);
      RunInOrder(p, first.sys, evs[1..]);
      InOrderAppend(p.cfg.stream, first.uses, rest.uses, sys.key.drawn, first.sys.key.drawn, rest.sys.key.drawn);
    }
  }

  /** One event more. */
  lemma {:induction false} RunSnoc<S, C>(p: Setup, sys: System<S, C>,
                                         evs: seq<SystemEvent<S, C>>, ev: SystemEvent<S, C>)
    requires Ok(p, sys) && Runs(p, sys, evs)
    ensures Ok(p, Run(p, sys, evs).sys)
    ensures Enabled(Run(p, sys, evs).sys, p, ev) ==>
              && Runs(p, sys, evs + [ev])
              && Run(p, sys, evs + [ev]).sys == Step(p, Run(p, sys, evs).sys, ev).sys
    decreases |evs|
  {
    if evs == [] {
      assert [] + [ev] == [ev];
      if Enabled(sys, p, ev) {
        StepInOrder(p, sys, ev);
      }
    } else {
      StepInOrder(p, sys, evs[0]);
      assert (evs + [ev])[0] == evs[0] && (evs + [ev])[1..] == evs[1..] + [ev];
      RunSnoc(p, Step(p, sys, evs[0]).sys, evs[1..], ev);
    }
  }

  /** What a run of both services looks like to the key service: the other one is somebody who draws bytes. */
  ghost function KeyView<S, C>(p: Setup, sys: System<S, C>, evs: seq<SystemEvent<S, C>>): seq<K.Event<S>>
    requires Ok(p, sys) && Runs(p, sys, evs)
    decreases |evs|
  {
    if evs == [] then
      []
    else
      StepInOrder(p, sys, evs[0]);
      var sys' := Step(p, sys, evs[0]).sys;
      var ev := match evs[0] case KeyEvent(e) => e case RngEvent(_) => K.OthersDraw(sys'.key.drawn - sys.key.drawn);
      [ev] + KeyView(p, sys', evs[1..])
  }

  /** So whatever holds of all runs of the key service holds of its part in all runs of both. */
  lemma {:induction false} KeyViewIsRun<S, C>(p: Setup, sys: System<S, C>, evs: seq<SystemEvent<S, C>>)
    requires Ok(p, sys) && Runs(p, sys, evs)
    ensures var view := KeyView(p, sys, evs);
            K.Runs(p.cfg, sys.key, view) && K.Run(p.cfg, sys.key, view) == Run(p, sys, evs).sys.key
    decreases |evs|
  {
    if evs != [] {
      StepInOrder(p, sys, evs[0]);
      var sys', view := Step(p, sys, evs[0]).sys, KeyView(p, sys, evs);
      var rest := KeyView(p, sys', evs[1..]);
      KeyViewIsRun(p, sys', evs[1..]);
      assert view == [view[0]] + rest;
      assert K.Enabled(p.cfg, sys.key, view[0]) && K.Step(p.cfg, sys.key, view[0]).st == sys'.key;
      H.RunCons(p.cfg, sys.key, view[0], rest);
    }
  }

  /** What it looks like to the random number service. */
  ghost function RngView<S, C>(p: Setup, sys: System<S, C>, evs: seq<SystemEvent<S, C>>): seq<R.Event<C>>
    requires Ok(p, sys) && Runs(p, sys, evs)
    decreases |evs|
  {
    if evs == [] then
      []
    else
      StepInOrder(p, sys, evs[0]);
      var sys' := Step(p, sys, evs[0]).sys;
      var ev := match evs[0] case KeyEvent(_) => R.OthersDraw(sys'.rng.drawn - sys.rng.drawn) case RngEvent(e) => e;
      [ev] + RngView(p, sys', evs[1..])
  }

  /** The messages that the random number service's own events send in a run of both. */
  ghost function RngSent<S, C>(p: Setup, sys: System<S, C>, evs: seq<SystemEvent<S, C>>): seq<R.Message<C>>
    requires Ok(p, sys) && Runs(p, sys, evs)
    decreases |evs|
  {
    if evs == [] then
      []
    else
      StepInOrder(p, sys, evs[0]);
      var sent := match evs[0]
        case KeyEvent(_) => []
        case RngEvent(e) => R.Step(p.modulus, p.cfg.stream, sys.rng, e).sent;
      sent + RngSent(p, Step(p, sys, evs[0]).sys, evs[1..])
  }

  /** And so for all runs of the random number service, its messages included. */
  lemma {:induction false} RngViewIsRun<S, C>(p: Setup, sys: System<S, C>, evs: seq<SystemEvent<S, C>>)
    requires Ok(p, sys) && Runs(p, sys, evs)
    ensures var view := RngView(p, sys, evs);
            && R.Runs(p.modulus, p.cfg.stream, sys.rng, view)
            && R.Run(p.modulus, p.cfg.stream, sys.rng, view)
               == R.Outcome(Run(p, sys, evs).sys.rng, RngSent(p, sys, evs))
    decreases |evs|
  {
    if evs != [] {
      StepInOrder(p, sys, evs[0]);
      var sys', view := Step(p, sys, evs[0]).sys, RngView(p, sys, evs);
      RngViewIsRun(p, sys', evs[1..]);
      RngViewStep(p, sys, evs[0], view[0]);
      assert view[1..] == RngView(p, sys', evs[1..]);
    }
  }

  lemma RngViewStep<S, C>(p: Setup, sys: System<S, C>, ev: SystemEvent<S, C>, seen: R.Event<C>)
    requires Ok(p, sys) && Enabled(sys, p, ev) && sys.rng.drawn <= Step(p, sys, ev).sys.rng.drawn
    requires seen == match ev
      case KeyEvent(_) => R.OthersDraw(Step(p, sys, ev).sys.rng.drawn - sys.rng.drawn)
      case RngEvent(e) => e
    ensures R.Enabled(sys.rng, seen)
    ensures R.Step(p.modulus, p.cfg.stream, sys.rng, seen).st == Step(p, sys, ev).sys.rng
    ensures R.Step(p.modulus, p.cfg.stream, sys.rng, seen).sent ==
            if ev.KeyEvent? then [] else R.Step(p.modulus, p.cfg.stream, sys.rng, ev.rng).sent
  {
  }

  /** A token that reaches a client is the token of a draw that is used for nothing else. */
  lemma IssuedTokenIsUse<S, C>(p: Setup, sys: System<S, C>, ev: K.Event<S>)
    requires Ok(p, sys) && K.Enabled(p.cfg, sys.key, ev)
    requires ev.Request? && ev.cmd.GetKeyslot? && ev.sendOk
    requires K.DrawsToken(p.cfg, sys.key, sys.key.sessions[ev.s], CString(ev.cmd.payload), ev.env)
    requires K.Step(p.cfg, sys.key, ev).reply.value.status == K.NoError
    ensures var uses := Step(p, sys, KeyEvent(ev)).uses;
            && |uses| == 1 && |uses[0].data| == DRAW_SIZE && Accepted(uses[0].data)
            && K.Step(p.cfg, sys.key, ev).reply.value.data == TokenOf(uses[0].data)
  {
  }

  /** The value the generator's `size_t` counter has when it hands out byte number `offset`. */
  function CounterAt(modulus: nat, offset: nat): nat
    requires modulus > 0
  {
    (1 + offset) % modulus
  }

  function CounterOf(modulus: nat, use: Use, m: nat): nat
    requires modulus > 0
  {
    CounterAt(modulus, use.from + m)
  }

  ghost predicate NoCounterValueTwice(modulus: nat, uses: seq<Use>)
    requires modulus > 0
  {
    forall i, j, m, n :: 0 <= i < j < |uses| && 0 <= m < |uses[i].data| && 0 <= n < |uses[j].data| ==>
      CounterOf(modulus, uses[i], m) != CounterOf(modulus, uses[j], n)
  }

  /**
   From start-up and for as long as the counter has not come round, no counter value
   serves twice: not in two replies, not in two tokens, not in one of each.
   */
  lemma CounterValuesAreFresh<S, C>(p: Setup, sys: System<S, C>, evs: seq<SystemEvent<S, C>>)
    requires Ok(p, sys) && Runs(p, sys, evs) && sys.key.drawn == 0
    requires Run(p, sys, evs).sys.key.drawn <= p.modulus
    ensures NoCounterValueTwice(p.modulus, Run(p, sys, evs).uses)
  {
    RunInOrder(p, sys, evs);
    var o := Run(p, sys, evs);
    UsesAreFresh(p.cfg.stream, o.uses, p.modulus, o.sys.key.drawn);
  }

  lemma UsesAreFresh(stream: nat -> byte, uses: seq<Use>, modulus: nat, hi: nat)
    requires IsSizeModulus(modulus) && InOrder(stream, uses, 0, hi) && hi <= modulus
    ensures NoCounterValueTwice(modulus, uses)
  {
    forall i, j, m, n | 0 <= i < j < |uses| && 0 <= m < |uses[i].data| && 0 <= n < |uses[j].data|
      ensures CounterOf(modulus, uses[i], m) != CounterOf(modulus, uses[j], n)
    {
      DistinctResidues(1 + (uses[i].from + m), 1 + (uses[j].from + n), modulus);
    }
  }

  lemma DistinctResidues(a: nat, b: nat, modulus: nat)
    requires IsSizeModulus(modulus) && 0 < a < b <= modulus
    ensures a % modulus != b % modulus
  {
    if b == modulus {
      assert b % modulus == 0 && a % modulus == a;
    } else {
      assert b % modulus == b && a % modulus == a;
    }
  }
}
