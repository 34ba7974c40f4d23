/**
 The random number service as a state machine: a queue of channels with pending
 byte counts, served a chunk at a time. A channel of type `C` stands for the address
 of its context. What the device and the transport answer is part of each event.
 Other users of the same generator may draw from it between any two events (`OthersDraw`).
 */
module HwrngSpec {
  import opened Bytes
  import opened CounterProvider

  const MAX_MSG_SIZE: nat := 4096

  datatype Chan = Chan(reqSize: nat, blocked: bool)

  datatype SendResult = Sent | NotEnoughBuffer | SendError

  /** How one attempt to serve a channel turns out. */
  datatype Attempt = Attempt(rngOk: bool, send: SendResult)

  datatype State<C> = State(queue: seq<C>, chans: map<C, Chan>, drawn: nat)

  /** A reply to a channel, cut out of the generator's stream at offset `from`. */
  datatype Message<C> = Message(to: C, from: nat, data: seq<byte>)

  datatype Incoming = NoMessage | BadMessage | Req(len: nat)

  datatype Event<C> =
    | Connect(c: C)
    | ChanEvent(c: C, hup: bool, unblocked: bool, msg: Incoming, env: map<C, Attempt>)
    | OthersDraw(n: nat)

  datatype Outcome<C> = Outcome(st: State<C>, sent: seq<Message<C>>)

  // ----- one channel

  datatype Fate = Skipped | Dropped | Held | Served

  function FateOf(chan: Chan, attempt: Attempt): Fate {
    if chan.blocked then Skipped
    else if !attempt.rngOk then Dropped
    else match attempt.send
      case Sent => Served
      case NotEnoughBuffer => Held
      case SendError => Dropped
  }

  function ChunkLen(chan: Chan): nat {
    if chan.reqSize > MAX_MSG_SIZE then MAX_MSG_SIZE else chan.reqSize
  }

  /** The channel afterwards; a dropped channel is gone. */
  function After(chan: Chan, fate: Fate): Chan
    requires !fate.Dropped?
  {
    match fate
    case Skipped => chan
    case Held => chan.(blocked := true)
    case Served => chan.(reqSize := chan.reqSize - ChunkLen(chan))
  }

  predicate StaysQueued(chan: Chan, fate: Fate) {
    fate.Skipped? || fate.Held? || (fate.Served? && chan.reqSize > ChunkLen(chan))
  }

  /** Bytes taken from the device for the channel; a chunk that could not be sent is lost. */
  function Consumed(chan: Chan, attempt: Attempt): nat {
    if !chan.blocked && attempt.rngOk then ChunkLen(chan) else 0
  }

  // ----- one pass over the queue

  ghost predicate Known<C>(queue: seq<C>, chans: map<C, Chan>) {
    forall c :: c in queue ==> c in chans
  }

  /** How the attempt for a channel turns out: as listed, or else it goes through. */
  function At<C(==)>(env: map<C, Attempt>, c: C): Attempt {
    if c in env then env[c] else Attempt(true, Sent)
  }

  /** Those of the first `k` in the queue that stay in it. */
  ghost function Kept<C>(queue: seq<C>, chans: map<C, Chan>, env: map<C, Attempt>, k: nat): seq<C>
    requires Known(queue, chans) && k <= |queue|
  {
    if k == 0 then
      []
    else
      var c := queue[k - 1];
      Kept(queue, chans, env, k - 1) + if StaysQueued(chans[c], FateOf(chans[c], At(env, c))) then [c] else []
  }

  ghost function TotalConsumed<C>(queue: seq<C>, chans: map<C, Chan>, env: map<C, Attempt>, k: nat): nat
    requires Known(queue, chans) && k <= |queue|
  {
    if k == 0 then
      0
    else
      TotalConsumed(queue, chans, env, k - 1) + Consumed(chans[queue[k - 1]], At(env, queue[k - 1]))
  }

  ghost function Replies<C>(stream: nat -> byte, drawn: nat, queue: seq<C>, chans: map<C, Chan>,
                            env: map<C, Attempt>, k: nat): seq<Message<C>>
    requires Known(queue, chans) && k <= |queue|
  {
    if k == 0 then
      []
    else
      var c := queue[k - 1];
      Replies(stream, drawn, queue, chans, env, k - 1) +
      ReplyTo(stream, drawn + TotalConsumed(queue, chans, env, k - 1), c, chans[c], At(env, c))
  }

  function ReplyTo<C>(stream: nat -> byte, from: nat, c: C, chan: Chan, attempt: Attempt): seq<Message<C>> {
    if FateOf(chan, attempt).Served? then [Message(c, from, Window(stream, from, ChunkLen(chan)))] else []
  }

  ghost function Survivors<C>(queue: seq<C>, chans: map<C, Chan>, env: map<C, Attempt>): map<C, Chan>
  {
    map c | c in chans && (c in queue ==> !FateOf(chans[c], At(env, c)).Dropped?) ::
      if c in queue then After(chans[c], FateOf(chans[c], At(env, c))) else chans[c]
  }

  ghost function Pass<C>(stream: nat -> byte, st: State<C>, env: map<C, Attempt>): Outcome<C>
    requires Known(st.queue, st.chans)
  {
    Outcome(State(Kept(st.queue, st.chans, env, |st.queue|),
                  Survivors(st.queue, st.chans, env),
                  st.drawn + TotalConsumed(st.queue, st.chans, env, |st.queue|)),
            Replies(stream, st.drawn, st.queue, st.chans, env, |st.queue|))
  }

  /** What a pass reports: was some channel served without being finished? */
  ghost predicate NeedMore<C>(queue: seq<C>, chans: map<C, Chan>, env: map<C, Attempt>)
    requires Known(queue, chans)
  {
    exists c :: c in queue && FateOf(chans[c], At(env, c)).Served? && chans[c].reqSize > ChunkLen(chans[c])
  }

  // ----- one event

  ghost function Close<C>(st: State<C>, c: C): State<C> {
    st.(queue := Removed(st.queue, c), chans := st.chans - {c})
  }

  ghost function Removed<C>(queue: seq<C>, c: C): seq<C> {
    if queue == [] then []
    else if queue[0] == c then queue[1..]
    else [queue[0]] + Removed(queue[1..], c)
  }

  /** A request for `len` more bytes; `reqSize` is a `size_t` and wraps around. */
  ghost function Extend<C>(modulus: nat, st: State<C>, c: C, len: nat): State<C>
    requires modulus > 0 && c in st.chans
  {
    var chan := st.chans[c];
    if c in st.queue then
      st.(chans := st.chans[c := chan.(reqSize := (chan.reqSize + len) % modulus)])
    else
      st.(queue := st.queue + [c], chans := st.chans[c := chan.(reqSize := len)])
  }

  ghost function Unblock<C>(st: State<C>, c: C, unblocked: bool): State<C>
    requires c in st.chans
  {
    if unblocked then st.(chans := st.chans[c := st.chans[c].(blocked := false)]) else st
  }

  /** The event's own effect, before the queue is kicked. */
  ghost function BeforeKick<C>(modulus: nat, st: State<C>, ev: Event<C>): State<C>
    requires modulus > 0 && Enabled(st, ev) && ev.ChanEvent?
  {
    if ev.hup then
      Close(st, ev.c)
    else
      var st1 := Unblock(st, ev.c, ev.unblocked);
      match ev.msg
      case NoMessage => st1
      case BadMessage => Close(st1, ev.c)
      case Req(len) => Extend(modulus, st1, ev.c, len)
  }

  ghost predicate Enabled<C>(st: State<C>, ev: Event<C>) {
    match ev
    case Connect(c) => c !in st.chans
    case ChanEvent(c, _, _, msg, _) => c in st.chans && (msg.Req? ==> msg.len < 0x1_0000_0000)
    case OthersDraw(_) => true
  }

  ghost function Step<C>(modulus: nat, stream: nat -> byte, st: State<C>, ev: Event<C>): Outcome<C>
    requires IsSizeModulus(modulus) && Inv(modulus, st) && Enabled(st, ev)
  {
    match ev
    case Connect(c) => Outcome(st.(chans := st.chans[c := Chan(0, false)]), [])
    case ChanEvent(_, _, _, _, env) =>
      var st1 := BeforeKick(modulus, st, ev);
      BeforeKickKeepsInv(modulus, st, ev);
      Pass(stream, st1, env)
    case OthersDraw(n) => Outcome(st.(drawn := st.drawn + n), [])
  }

  // ----- the invariant

  ghost predicate Distinct<T>(s: seq<T>) {
    forall i, j :: 0 <= i < j < |s| ==> s[i] != s[j]
  }

  /** Channels are queued at most once; one that is not queued is owed nothing and is not blocked. */
  ghost predicate Inv<C>(modulus: nat, st: State<C>) {
    && Distinct(st.queue)
    && Known(st.queue, st.chans)
    && (forall c :: c in st.chans && c !in st.queue ==> st.chans[c] == Chan(0, false))
    && (forall c :: c in st.chans ==> st.chans[c].reqSize < modulus)
  }

  /** What is removed is the first occurrence. */
  lemma {:induction false} RemovedFirst<C>(front: seq<C>, rest: seq<C>, c: C)
    requires c !in front && (rest == [] || rest[0] == c)
    ensures Removed(front + rest, c) == front + if rest == [] then [] else rest[1..]
  {
    if front == [] {
      assert front + rest == rest;
    } else {
      var tail := front[1..];
      RemovedFirst(tail, rest, c);
      assert front + rest == [front[0]] + (tail + rest);
    }
  }

  lemma {:induction false} RemovedMembers<C>(queue: seq<C>, c: C)
    requires Distinct(queue)
    ensures Distinct(Removed(queue, c))
    ensures forall d :: d in Removed(queue, c) ==> d in queue && d != c
    ensures forall d :: d in queue && d != c ==> d in Removed(queue, c)
  {
    if queue != [] {
      var tail := queue[1..];
      assert queue == [queue[0]] + tail;
      assert forall i :: 0 <= i < |tail| ==> tail[i] == queue[i + 1] && tail[i] != queue[0];
      RemovedMembers(tail, c);
      var r := Removed(tail, c);
      forall i | 0 <= i < |r|
        ensures r[i] != queue[0]
      {
        assert r[i] in r && r[i] in tail;
      }
    }
  }

  lemma BeforeKickKeepsInv<C>(modulus: nat, st: State<C>, ev: Event<C>)
    requires IsSizeModulus(modulus) && Inv(modulus, st) && Enabled(st, ev) && ev.ChanEvent?
    ensures Inv(modulus, BeforeKick(modulus, st, ev))
  {
    RemovedMembers(st.queue, ev.c);
    if !ev.hup && ev.unblocked {
      UnblockKeepsInv(modulus, st, ev.c);
    }
    if !ev.hup && ev.msg.Req? {
      ExtendKeepsInv(modulus, Unblock(st, ev.c, ev.unblocked), ev.c, ev.msg.len);
    }
  }

  lemma UnblockKeepsInv<C>(modulus: nat, st: State<C>, c: C)
    requires Inv(modulus, st) && c in st.chans
    ensures Inv(modulus, Unblock(st, c, true))
  {
  }

  lemma ExtendKeepsInv<C>(modulus: nat, st: State<C>, c: C, len: nat)
    requires IsSizeModulus(modulus) && Inv(modulus, st) && c in st.chans && len < 0x1_0000_0000
    ensures Inv(modulus, Extend(modulus, st, c, len))
  {
  }

  lemma {:induction false} KeptMembers<C>(queue: seq<C>, chans: map<C, Chan>, env: map<C, Attempt>, k: nat)
    requires Known(queue, chans) && Distinct(queue) && k <= |queue|
    ensures Distinct(Kept(queue, chans, env, k))
    ensures forall c :: c in Kept(queue, chans, env, k) ==>
                        c in queue[..k] && StaysQueued(chans[c], FateOf(chans[c], At(env, c)))
    ensures forall c :: c in queue[..k] && StaysQueued(chans[c], FateOf(chans[c], At(env, c))) ==>
                        c in Kept(queue, chans, env, k)
  {
    if k > 0 {
      KeptMembers(queue, chans, env, k - 1);
      assert queue[..k] == queue[..k - 1] + [queue[k - 1]];
      assert queue[k - 1] !in queue[..k - 1];
    }
  }

  lemma PassMembers<C>(st: State<C>, env: map<C, Attempt>)
    requires Known(st.queue, st.chans) && Distinct(st.queue)
    ensures var kept := Kept(st.queue, st.chans, env, |st.queue|);
            && Distinct(kept)
            && (forall c :: c in kept ==> c in st.queue && StaysQueued(st.chans[c], FateOf(st.chans[c], At(env, c))))
            && (forall c :: c in st.queue && StaysQueued(st.chans[c], FateOf(st.chans[c], At(env, c))) ==> c in kept)
  {
    KeptMembers(st.queue, st.chans, env, |st.queue|);
    assert st.queue[..|st.queue|] == st.queue;
  }

  lemma PassKeepsInv<C>(modulus: nat, stream: nat -> byte, st: State<C>, env: map<C, Attempt>)
    requires Inv(modulus, st)
    ensures Inv(modulus, Pass(stream, st, env).st)
  {
    PassMembers(st, env);
  }

  lemma StepKeepsInv<C>(modulus: nat, stream: nat -> byte, st: State<C>, ev: Event<C>)
    requires IsSizeModulus(modulus) && Inv(modulus, st) && Enabled(st, ev)
    ensures Inv(modulus, Step(modulus, stream, st, ev).st)
  {
    if ev.ChanEvent? {
      BeforeKickKeepsInv(modulus, st, ev);
      PassKeepsInv(modulus, stream, BeforeKick(modulus, st, ev), ev.env);
    }
  }

  // ----- runs

  ghost predicate Runs<C>(modulus: nat, stream: nat -> byte, st: State<C>, evs: seq<Event<C>>)
    requires IsSizeModulus(modulus) && Inv(modulus, st)
    decreases |evs|
  {
    evs == [] ||
    (Enabled(st, evs[0]) &&
     (StepKeepsInv(modulus, stream, st, evs[0]);
      Runs(modulus, stream, Step(modulus, stream, st, evs[0]).st, evs[1..])))
  }

  ghost function Run<C>(modulus: nat, stream: nat -> byte, st: State<C>, evs: seq<Event<C>>): Outcome<C>
    requires IsSizeModulus(modulus) && Inv(modulus, st) && Runs(modulus, stream, st, evs)
    decreases |evs|
  {
    if evs == [] then
      Outcome(st, [])
    else
      StepKeepsInv(modulus, stream, st, evs[0]);
      var first := Step(modulus, stream, st, evs[0]);
      var rest := Run(modulus, stream, first.st, evs[1..]);
      Outcome(rest.st, first.sent + rest.sent)
  }
}
