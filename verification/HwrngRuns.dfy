/** What the scheduler of the random number service guarantees, over passes and over whole runs. */
module HwrngRuns {
  import opened Bytes
  import opened CounterProvider
  import opened HwrngSpec

  // ----- a pass serves each channel on its own

  ghost function SentTo<C>(sent: seq<Message<C>>, c: C): seq<Message<C>> {
    if sent == [] then [] else (if sent[0].to == c then [sent[0]] else []) + SentTo(sent[1..], c)
  }

  lemma {:induction false} SentToAppend<C>(a: seq<Message<C>>, b: seq<Message<C>>, c: C)
    ensures SentTo(a + b, c) == SentTo(a, c) + SentTo(b, c)
  {
    if a == [] {
      assert a + b == b;
    } else {
      assert (a + b)[1..] == a[1..] + b;
      SentToAppend(a[1..], b, c);
      var head := if a[0].to == c then [a[0]] else [];
      assert SentTo(a + b, c) == head + SentTo((a + b)[1..], c);
    }
  }

  /** The reply of the `j`-th visit of a pass, if it sends one. */
  ghost function VisitReply<C>(stream: nat -> byte, drawn: nat, queue: seq<C>, chans: map<C, Chan>,
                               env: map<C, Attempt>, j: nat): seq<Message<C>>
    requires Known(queue, chans) && j < |queue|
  {
    ReplyTo(stream, drawn + TotalConsumed(queue, chans, env, j), queue[j], chans[queue[j]], At(env, queue[j]))
  }

  lemma LastVisit<C>(stream: nat -> byte, drawn: nat, queue: seq<C>, chans: map<C, Chan>, env: map<C, Attempt>,
                     k: nat, c: C)
    requires Known(queue, chans) && 0 < k <= |queue|
    ensures SentTo(Replies(stream, drawn, queue, chans, env, k), c) ==
            SentTo(Replies(stream, drawn, queue, chans, env, k - 1), c) +
            if queue[k - 1] == c then VisitReply(stream, drawn, queue, chans, env, k - 1) else []
  {
    var before := Replies(stream, drawn, queue, chans, env, k - 1);
    var reply := VisitReply(stream, drawn, queue, chans, env, k - 1);
    assert Replies(stream, drawn, queue, chans, env, k) == before + reply;
    SentToAppend(before, reply, c);
    SentToSelf(reply, queue[k - 1], c);
  }

  lemma SentToSelf<C>(reply: seq<Message<C>>, to: C, c: C)
    requires reply == [] || (|reply| == 1 && reply[0].to == to)
    ensures SentTo(reply, c) == if to == c then reply else []
  {
  }

  lemma {:induction false} SentToNone<C>(sent: seq<Message<C>>, c: C)
    requires forall i :: 0 <= i < |sent| ==> sent[i].to != c
    ensures SentTo(sent, c) == []
  {
    if sent != [] {
      SentToNone(sent[1..], c);
    }
  }

  lemma {:induction false} RepliesToVisited<C>(stream: nat -> byte, drawn: nat, queue: seq<C>,
                                               chans: map<C, Chan>, env: map<C, Attempt>, k: nat)
    requires Known(queue, chans) && k <= |queue|
    ensures forall m :: m in Replies(stream, drawn, queue, chans, env, k) ==> m.to in queue[..k]
  {
    if k > 0 {
      RepliesToVisited(stream, drawn, queue, chans, env, k - 1);
      assert queue[..k] == queue[..k - 1] + [queue[k - 1]];
    }
  }

  /** A channel gets nothing out of the visits to others. */
  lemma NothingForOthers<C>(stream: nat -> byte, drawn: nat, queue: seq<C>,
                            chans: map<C, Chan>, env: map<C, Attempt>, k: nat, c: C)
    requires Known(queue, chans) && k <= |queue| && c !in queue[..k]
    ensures SentTo(Replies(stream, drawn, queue, chans, env, k), c) == []
  {
    var sent := Replies(stream, drawn, queue, chans, env, k);
    RepliesToVisited(stream, drawn, queue, chans, env, k);
    forall i | 0 <= i < |sent|
      ensures sent[i].to != c
    {
      assert sent[i] in sent;
    }
    SentToNone(sent, c);
  }

  lemma VisitOfAnother<C>(stream: nat -> byte, drawn: nat, queue: seq<C>, chans: map<C, Chan>, env: map<C, Attempt>,
                          k: nat, c: C)
    requires Known(queue, chans) && 0 < k <= |queue| && queue[k - 1] != c
    ensures SentTo(Replies(stream, drawn, queue, chans, env, k), c) ==
            SentTo(Replies(stream, drawn, queue, chans, env, k - 1), c)
  {
    LastVisit(stream, drawn, queue, chans, env, k, c);
  }

  lemma FirstVisit<C>(stream: nat -> byte, drawn: nat, queue: seq<C>, chans: map<C, Chan>, env: map<C, Attempt>,
                      j: nat, next: nat)
    requires Known(queue, chans) && next == j + 1 <= |queue| && queue[j] !in queue[..j]
    ensures SentTo(Replies(stream, drawn, queue, chans, env, next), queue[j]) ==
            VisitReply(stream, drawn, queue, chans, env, j)
  {
    LastVisit(stream, drawn, queue, chans, env, next, queue[j]);
    NothingForOthers(stream, drawn, queue, chans, env, j, queue[j]);
  }

  /** Visits to others after the `i`-th add nothing. */
  lemma {:induction false} LaterVisits<C>(stream: nat -> byte, drawn: nat, queue: seq<C>, chans: map<C, Chan>,
                                          env: map<C, Attempt>, i: nat, k: nat, c: C)
    requires Known(queue, chans) && i <= k <= |queue| && forall m :: i <= m < k ==> queue[m] != c
    ensures SentTo(Replies(stream, drawn, queue, chans, env, k), c) ==
            SentTo(Replies(stream, drawn, queue, chans, env, i), c)
    decreases k
  {
    if i < k {
      VisitOfAnother(stream, drawn, queue, chans, env, k, c);
      LaterVisits(stream, drawn, queue, chans, env, i, k - 1, c);
    }
  }

  lemma DistinctAround<C>(queue: seq<C>, j: nat)
    requires Distinct(queue) && j < |queue|
    ensures queue[j] !in queue[..j]
    ensures forall m :: j + 1 <= m < |queue| ==> queue[m] != queue[j]
  {
  }

  lemma OnlyVisit<C>(stream: nat -> byte, drawn: nat, queue: seq<C>, chans: map<C, Chan>, env: map<C, Attempt>,
                     k: nat, j: nat, next: nat, c: C)
    requires Known(queue, chans) && j < next <= k <= |queue| && next == j + 1 && c == queue[j]
    requires c !in queue[..j] && forall m :: next <= m < k ==> queue[m] != c
    ensures SentTo(Replies(stream, drawn, queue, chans, env, k), c) ==
            VisitReply(stream, drawn, queue, chans, env, j)
  {
    FirstVisit(stream, drawn, queue, chans, env, j, next);
    LaterVisits(stream, drawn, queue, chans, env, next, k, c);
  }

  /** A waiting channel is visited exactly once, and that visit is all it gets. */
  lemma OneVisit<C>(stream: nat -> byte, drawn: nat, queue: seq<C>, chans: map<C, Chan>, env: map<C, Attempt>,
                    k: nat, j: nat)
    requires Known(queue, chans) && Distinct(queue) && j < k <= |queue|
    ensures SentTo(Replies(stream, drawn, queue, chans, env, k), queue[j]) ==
            VisitReply(stream, drawn, queue, chans, env, j)
  {
    DistinctAround(queue, j);
    OnlyVisit(stream, drawn, queue, chans, env, k, j, j + 1, queue[j]);
  }

  lemma PassSendsNothing<C>(stream: nat -> byte, st: State<C>, env: map<C, Attempt>, c: C)
    requires Known(st.queue, st.chans) && c !in st.queue
    ensures SentTo(Pass(stream, st, env).sent, c) == []
  {
    assert st.queue[..|st.queue|] == st.queue;
    NothingForOthers(stream, st.drawn, st.queue, st.chans, env, |st.queue|, c);
  }

  lemma VisitReplyFrom<C>(stream: nat -> byte, drawn: nat, queue: seq<C>, chans: map<C, Chan>, env: map<C, Attempt>,
                          j: nat, c: C, from: nat)
    requires Known(queue, chans) && j < |queue| && c == queue[j]
    requires from == drawn + TotalConsumed(queue, chans, env, j)
    ensures VisitReply(stream, drawn, queue, chans, env, j) == ReplyTo(stream, from, c, chans[c], At(env, c))
  {
  }

  lemma PassSendsReplies<C>(stream: nat -> byte, st: State<C>, env: map<C, Attempt>)
    requires Known(st.queue, st.chans)
    ensures Pass(stream, st, env).sent == Replies(stream, st.drawn, st.queue, st.chans, env, |st.queue|)
  {
  }

  /** What a whole pass sends to a channel. */
  lemma PassSends<C>(modulus: nat, stream: nat -> byte, st: State<C>, env: map<C, Attempt>, c: C) returns (from: nat)
    requires Inv(modulus, st)
    ensures SentTo(Pass(stream, st, env).sent, c) ==
            if c in st.queue then ReplyTo(stream, from, c, st.chans[c], At(env, c)) else []
  {
    from := 0;
    if c in st.queue {
      var j :| 0 <= j < |st.queue| && st.queue[j] == c;
      from := st.drawn + TotalConsumed(st.queue, st.chans, env, j);
      PassSendsReplies(stream, st, env);
      OneVisit(stream, st.drawn, st.queue, st.chans, env, |st.queue|, j);
      VisitReplyFrom(stream, st.drawn, st.queue, st.chans, env, j, c, from);
    } else {
      PassSendsNothing(stream, st, env, c);
    }
  }

  // ----- first come, first served

  /** Those of the first `k` in the queue that belong to a set, in queue order. */
  ghost function Select<C>(queue: seq<C>, chosen: set<C>, k: nat): seq<C>
    requires k <= |queue|
  {
    if k == 0 then [] else Select(queue, chosen, k - 1) + if queue[k - 1] in chosen then [queue[k - 1]] else []
  }

  ghost function Recipients<C>(sent: seq<Message<C>>): seq<C> {
    seq(|sent|, i requires 0 <= i < |sent| => sent[i].to)
  }

  lemma {:induction false} RepliesInQueueOrder<C>(stream: nat -> byte, drawn: nat, queue: seq<C>, chans: map<C, Chan>,
                                                  env: map<C, Attempt>, served: set<C>, k: nat)
    requires Known(queue, chans) && k <= |queue|
    requires forall c :: c in queue ==> (c in served <==> FateOf(chans[c], At(env, c)).Served?)
    ensures Recipients(Replies(stream, drawn, queue, chans, env, k)) == Select(queue, served, k)
  {
    if k > 0 {
      RepliesInQueueOrder(stream, drawn, queue, chans, env, served, k - 1);
      var before := Replies(stream, drawn, queue, chans, env, k - 1);
      var now := Replies(stream, drawn, queue, chans, env, k);
      assert now == before || (|now| == |before| + 1 && now[..|before|] == before && now[|before|].to == queue[k - 1]);
      assert Recipients(now)[..|before|] == Recipients(before);
    }
  }

  lemma {:induction false} KeptInQueueOrder<C>(queue: seq<C>, chans: map<C, Chan>, env: map<C, Attempt>,
                                               waiting: set<C>, k: nat)
    requires Known(queue, chans) && k <= |queue|
    requires forall c :: c in queue ==> (c in waiting <==> StaysQueued(chans[c], FateOf(chans[c], At(env, c))))
    ensures Kept(queue, chans, env, k) == Select(queue, waiting, k)
  {
    if k > 0 {
      KeptInQueueOrder(queue, chans, env, waiting, k - 1);
    }
  }

  /** First come, first served: a pass answers in queue order, and those who must wait on keep their order. */
  lemma PassIsFifo<C>(stream: nat -> byte, st: State<C>, env: map<C, Attempt>)
    requires Known(st.queue, st.chans)
    ensures var served := set c | c in st.queue && FateOf(st.chans[c], At(env, c)).Served?;
            Recipients(Pass(stream, st, env).sent) == Select(st.queue, served, |st.queue|)
    ensures var waiting := set c | c in st.queue && StaysQueued(st.chans[c], FateOf(st.chans[c], At(env, c)));
            Pass(stream, st, env).st.queue == Select(st.queue, waiting, |st.queue|)
  {
    var served := set c | c in st.queue && FateOf(st.chans[c], At(env, c)).Served?;
    RepliesInQueueOrder(stream, st.drawn, st.queue, st.chans, env, served, |st.queue|);
    var waiting := set c | c in st.queue && StaysQueued(st.chans[c], FateOf(st.chans[c], At(env, c)));
    KeptInQueueOrder(st.queue, st.chans, env, waiting, |st.queue|);
  }

  // ----- conservation

  ghost function TotalBytes<C>(sent: seq<Message<C>>): nat {
    if sent == [] then 0 else |sent[0].data| + TotalBytes(sent[1..])
  }

  lemma {:induction false} TotalBytesAppend<C>(a: seq<Message<C>>, b: seq<Message<C>>)
    ensures TotalBytes(a + b) == TotalBytes(a) + TotalBytes(b)
  {
    if a == [] {
      assert a + b == b;
    } else {
      assert (a + b)[1..] == a[1..] + b;
      TotalBytesAppend(a[1..], b);
    }
  }

  /** Bytes of request that one event adds to channel `c`. */
  ghost function RequestedBy<C>(ev: Event<C>, c: C): nat {
    if ev.ChanEvent? && ev.c == c && !ev.hup && ev.msg.Req? then ev.msg.len else 0
  }

  /** 1 if this event makes the channel's `size_t` counter wrap around, else 0. */
  ghost function WrapsBy<C>(modulus: nat, st: State<C>, ev: Event<C>, c: C): nat
    requires c in st.chans
  {
    if c in st.queue && st.chans[c].reqSize + RequestedBy(ev, c) >= modulus then 1 else 0
  }

  ghost function Requested<C>(evs: seq<Event<C>>, c: C): nat {
    if evs == [] then 0 else RequestedBy(evs[0], c) + Requested(evs[1..], c)
  }

  /** The channel is open all through the run. */
  ghost predicate OpenThroughout<C>(modulus: nat, stream: nat -> byte, st: State<C>, evs: seq<Event<C>>, c: C)
    requires IsSizeModulus(modulus) && Inv(modulus, st) && Runs(modulus, stream, st, evs)
    decreases |evs|
  {
    && c in st.chans
    && (evs != [] ==>
          (StepKeepsInv(modulus, stream, st, evs[0]);
           OpenThroughout(modulus, stream, Step(modulus, stream, st, evs[0]).st, evs[1..], c)))
  }

  ghost function Wraps<C>(modulus: nat, stream: nat -> byte, st: State<C>, evs: seq<Event<C>>, c: C): nat
    requires IsSizeModulus(modulus) && Inv(modulus, st) && Runs(modulus, stream, st, evs)
    requires OpenThroughout(modulus, stream, st, evs, c)
    decreases |evs|
  {
    if evs == [] then
      0
    else
      StepKeepsInv(modulus, stream, st, evs[0]);
      WrapsBy(modulus, st, evs[0], c) + Wraps(modulus, stream, Step(modulus, stream, st, evs[0]).st, evs[1..], c)
  }

  lemma PassConserves<C>(modulus: nat, stream: nat -> byte, st: State<C>, env: map<C, Attempt>, c: C)
    requires Inv(modulus, st) && c in st.chans && c in Pass(stream, st, env).st.chans
    ensures var o := Pass(stream, st, env);
            TotalBytes(SentTo(o.sent, c)) + o.st.chans[c].reqSize == st.chans[c].reqSize
  {
    var from := PassSends(modulus, stream, st, env, c);
  }

  lemma BeforeKickAddsRequest<C>(modulus: nat, st: State<C>, ev: Event<C>, c: C)
    requires IsSizeModulus(modulus) && Inv(modulus, st) && Enabled(st, ev) && ev.ChanEvent?
    requires c in st.chans && c in BeforeKick(modulus, st, ev).chans
    ensures BeforeKick(modulus, st, ev).chans[c].reqSize + modulus * WrapsBy(modulus, st, ev, c)
            == st.chans[c].reqSize + RequestedBy(ev, c)
  {
    if ev.c == c && !ev.hup && ev.msg.Req? {
      ExtendAddsRequest(modulus, Unblock(st, c, ev.unblocked), c, ev.msg.len);
    }
  }

  lemma ExtendAddsRequest<C>(modulus: nat, st: State<C>, c: C, len: nat)
    requires IsSizeModulus(modulus) && c in st.chans && st.chans[c].reqSize < modulus && len < 0x1_0000_0000
    requires c !in st.queue ==> st.chans[c].reqSize == 0
    ensures Extend(modulus, st, c, len).chans[c].reqSize +
            modulus * (if c in st.queue && st.chans[c].reqSize + len >= modulus then 1 else 0)
            == st.chans[c].reqSize + len
  {
    WrapOnce(st.chans[c].reqSize, len, modulus);
  }

  lemma WrapOnce(owed: nat, len: nat, modulus: nat)
    requires owed < modulus && len <= modulus
    ensures (owed + len) % modulus == if owed + len >= modulus then owed + len - modulus else owed + len
  {
    if owed + len >= modulus {
      assert owed + len == modulus + (owed + len - modulus);
    }
  }

  lemma StepConserves<C>(modulus: nat, stream: nat -> byte, st: State<C>, ev: Event<C>, c: C)
    requires IsSizeModulus(modulus) && Inv(modulus, st) && Enabled(st, ev)
    requires c in st.chans && c in Step(modulus, stream, st, ev).st.chans
    ensures var o := Step(modulus, stream, st, ev);
            TotalBytes(SentTo(o.sent, c)) + o.st.chans[c].reqSize + modulus * WrapsBy(modulus, st, ev, c)
            == st.chans[c].reqSize + RequestedBy(ev, c)
  {
    if ev.ChanEvent? {
      BeforeKickKeepsInv(modulus, st, ev);
      BeforeKickAddsRequest(modulus, st, ev, c);
      PassConserves(modulus, stream, BeforeKick(modulus, st, ev), ev.env, c);
    }
  }

  /**
   Conservation: what a channel has been sent plus what it is still owed is what it
   asked for, short of one `2^w` for each time its counter wrapped. So the books
   balance exactly if and only if the pending total always fitted `size_t`.
   */
  lemma {:induction false} RunConserves<C>(modulus: nat, stream: nat -> byte, st: State<C>, evs: seq<Event<C>>, c: C)
    requires IsSizeModulus(modulus) && Inv(modulus, st) && Runs(modulus, stream, st, evs)
    requires OpenThroughout(modulus, stream, st, evs, c)
    ensures var o := Run(modulus, stream, st, evs);
            && c in o.st.chans
            && TotalBytes(SentTo(o.sent, c)) + o.st.chans[c].reqSize + modulus * Wraps(modulus, stream, st, evs, c)
               == st.chans[c].reqSize + Requested(evs, c)
    decreases |evs|
  {
    if evs != [] {
      StepKeepsInv(modulus, stream, st, evs[0]);
      var first := Step(modulus, stream, st, evs[0]);
      var rest := Run(modulus, stream, first.st, evs[1..]);
      StepConserves(modulus, stream, st, evs[0], c);
      RunConserves(modulus, stream, first.st, evs[1..], c);
      SentToAppend(first.sent, rest.sent, c);
      TotalBytesAppend(SentTo(first.sent, c), SentTo(rest.sent, c));
    }
  }

  // ----- `need_more`

  /** After a pass, `need_more` says exactly whether some unblocked channel is still waiting. */
  lemma NeedMoreIsExact<C>(modulus: nat, stream: nat -> byte, st: State<C>, env: map<C, Attempt>)
    requires Inv(modulus, st)
    ensures var st' := Pass(stream, st, env).st;
            NeedMore(st.queue, st.chans, env) <==> exists c :: c in st'.queue && c in st'.chans && !st'.chans[c].blocked
  {
    PassMembers(st, env);
    var st' := Pass(stream, st, env).st;
    if c :| c in st'.queue && c in st'.chans && !st'.chans[c].blocked {
      assert FateOf(st.chans[c], At(env, c)).Served?;
    }
    if c :| c in st.queue && FateOf(st.chans[c], At(env, c)).Served? && st.chans[c].reqSize > ChunkLen(st.chans[c]) {
      assert c in st'.queue && !st'.chans[c].blocked;
    }
  }

  /** Passes in a row, with no event in between. */
  ghost function Passes<C>(modulus: nat, stream: nat -> byte, st: State<C>, envs: seq<map<C, Attempt>>): Outcome<C>
    requires Inv(modulus, st)
    decreases |envs|
  {
    if envs == [] then
      Outcome(st, [])
    else
      PassKeepsInv(modulus, stream, st, envs[0]);
      var first := Pass(stream, st, envs[0]);
      var rest := Passes(modulus, stream, first.st, envs[1..]);
      Outcome(rest.st, first.sent + rest.sent)
  }

  /** Every one of the passes reports that more is needed. */
  ghost predicate AllNeedMore<C>(modulus: nat, stream: nat -> byte, st: State<C>, envs: seq<map<C, Attempt>>)
    requires Inv(modulus, st)
    decreases |envs|
  {
    envs == [] ||
    (PassKeepsInv(modulus, stream, st, envs[0]);
     NeedMore(st.queue, st.chans, envs[0]) && AllNeedMore(modulus, stream, Pass(stream, st, envs[0]).st, envs[1..]))
  }

  /** If `n` passes in a row all want another, some channel started with more than `n` full chunks. */
  lemma {:induction false} SomeoneWantedMore<C>(modulus: nat, stream: nat -> byte, st: State<C>,
                                                envs: seq<map<C, Attempt>>) returns (c: C)
    requires Inv(modulus, st) && envs != [] && AllNeedMore(modulus, stream, st, envs)
    ensures c in st.queue && !st.chans[c].blocked && st.chans[c].reqSize > 4096 * |envs|
    decreases |envs|
  {
    PassKeepsInv(modulus, stream, st, envs[0]);
    PassMembers(st, envs[0]);
    if |envs| == 1 {
      c :| c in st.queue && FateOf(st.chans[c], At(envs[0], c)).Served? && st.chans[c].reqSize > ChunkLen(st.chans[c]);
    } else {
      c := SomeoneWantedMore(modulus, stream, Pass(stream, st, envs[0]).st, envs[1..]);
    }
  }

  /**
   Repeating passes until one reports that nothing more is needed takes at most
   `max(1, ceil(pending / 4096))` of them, whatever the device and the transport do.
   */
  lemma PassesTerminate<C>(modulus: nat, stream: nat -> byte, st: State<C>, envs: seq<map<C, Attempt>>, pending: nat)
    requires Inv(modulus, st)
    requires forall c :: c in st.queue && !st.chans[c].blocked ==> st.chans[c].reqSize <= pending
    requires |envs| >= 1 && |envs| >= (pending + 4095) / 4096
    ensures !AllNeedMore(modulus, stream, st, envs)
  {
    if AllNeedMore(modulus, stream, st, envs) {
      var c := SomeoneWantedMore(modulus, stream, st, envs);
    }
  }

  // ----- what repeated passes deliver to one channel

  /** `n` bytes cut into at most `k` messages: all full except possibly the last. */
  ghost function Chunks(n: nat, k: nat): seq<nat> {
    if k == 0 then [] else if n <= 4096 then [n] else [4096] + Chunks(n - 4096, k - 1)
  }

  /** What is left of `n` after `k` chunks. */
  ghost function OwedAfter(n: nat, k: nat): nat {
    if k == 0 then n else if n <= 4096 then 0 else OwedAfter(n - 4096, k - 1)
  }

  ghost function Sum(s: seq<nat>): nat {
    if s == [] then 0 else s[0] + Sum(s[1..])
  }

  lemma {:induction false} ChunksAddUp(n: nat, k: nat)
    ensures Sum(Chunks(n, k)) == if n <= 4096 * k then n else 4096 * k
    ensures OwedAfter(n, k) == n - Sum(Chunks(n, k))
    ensures |Chunks(n, k)| <= k
    ensures forall i :: 0 <= i < |Chunks(n, k)| - 1 ==> Chunks(n, k)[i] == 4096
    ensures forall i :: 0 <= i < |Chunks(n, k)| ==> Chunks(n, k)[i] <= 4096
  {
    if k > 0 && n > 4096 {
      ChunksAddUp(n - 4096, k - 1);
    }
  }

  ghost function Lengths<C>(sent: seq<Message<C>>): seq<nat> {
    if sent == [] then [] else [|sent[0].data|] + Lengths(sent[1..])
  }

  lemma {:induction false} LengthsAppend<C>(a: seq<Message<C>>, b: seq<Message<C>>)
    ensures Lengths(a + b) == Lengths(a) + Lengths(b)
  {
    if a == [] {
      assert a + b == b;
    } else {
      assert (a + b)[1..] == a[1..] + b;
      LengthsAppend(a[1..], b);
    }
  }

  lemma PassDelivers<C>(modulus: nat, stream: nat -> byte, st: State<C>, env: map<C, Attempt>, c: C)
    requires Inv(modulus, st) && c in st.queue && !st.chans[c].blocked && At(env, c) == Attempt(true, Sent)
    ensures var n, o := st.chans[c].reqSize, Pass(stream, st, env);
            && Lengths(SentTo(o.sent, c)) == [ChunkLen(st.chans[c])]
            && c in o.st.chans && o.st.chans[c] == Chan(n - ChunkLen(st.chans[c]), false)
            && (c in o.st.queue <==> n > MAX_MSG_SIZE)
  {
    PassMembers(st, env);
    var from := PassSends(modulus, stream, st, env, c);
  }

  /** Every attempt for `c` succeeds. */
  ghost predicate GoesThrough<C>(envs: seq<map<C, Attempt>>, c: C) {
    envs == [] || (At(envs[0], c) == Attempt(true, Sent) && GoesThrough(envs[1..], c))
  }

  /** `c`, owed `n` bytes, has had `k` chunks of them. */
  ghost predicate Delivered<C>(o: Outcome<C>, c: C, n: nat, k: nat) {
    && Lengths(SentTo(o.sent, c)) == Chunks(n, k)
    && c in o.st.chans && o.st.chans[c] == Chan(OwedAfter(n, k), false)
    && (c in o.st.queue <==> k == 0 || OwedAfter(n, k) > 0)
  }

  lemma PassesSplit<C>(modulus: nat, stream: nat -> byte, st: State<C>, envs: seq<map<C, Attempt>>, c: C)
    requires Inv(modulus, st) && envs != []
    ensures Inv(modulus, Pass(stream, st, envs[0]).st)
    ensures var first, o := Pass(stream, st, envs[0]), Passes(modulus, stream, st, envs);
            var rest := Passes(modulus, stream, first.st, envs[1..]);
            && o.st == rest.st
            && Lengths(SentTo(o.sent, c)) == Lengths(SentTo(first.sent, c)) + Lengths(SentTo(rest.sent, c))
  {
    PassKeepsInv(modulus, stream, st, envs[0]);
    var first := Pass(stream, st, envs[0]);
    var rest := Passes(modulus, stream, first.st, envs[1..]);
    SentToAppend(first.sent, rest.sent, c);
    LengthsAppend(SentTo(first.sent, c), SentTo(rest.sent, c));
  }

  /**
   A waiting, unblocked channel owed `n` bytes whose own attempts succeed in `k`
   passes gets `min(n, 4096 k)` bytes in full chunks but the last, and leaves the
   queue when it has had everything, no matter what happens to the others.
   */
  lemma {:induction false} PassesDeliver<C>(modulus: nat, stream: nat -> byte, st: State<C>,
                                            envs: seq<map<C, Attempt>>, c: C)
    requires Inv(modulus, st) && c in st.queue && !st.chans[c].blocked
    requires GoesThrough(envs, c)
    ensures Delivered(Passes(modulus, stream, st, envs), c, st.chans[c].reqSize, |envs|)
    decreases |envs|
  {
    if envs != [] {
      PassesSplit(modulus, stream, st, envs, c);
      PassDelivers(modulus, stream, st, envs[0], c);
      var st1 := Pass(stream, st, envs[0]).st;
      var o, rest := Passes(modulus, stream, st, envs), Passes(modulus, stream, st1, envs[1..]);
      if st.chans[c].reqSize > MAX_MSG_SIZE {
        PassesDeliver(modulus, stream, st1, envs[1..], c);
        FullChunkFirst(o, rest, c, st.chans[c], st1.chans[c], |envs|, |envs[1..]|);
      } else {
        NothingWhileUnqueued(modulus, stream, st1, envs[1..], c);
        OnlyChunk(o, rest, c, st.chans[c], |envs|);
      }
    }
  }

  lemma FullChunkFirst<C>(o: Outcome<C>, rest: Outcome<C>, c: C, chan: Chan, chan1: Chan, k: nat, k1: nat)
    requires k == k1 + 1 && o.st == rest.st
    requires chan.reqSize > MAX_MSG_SIZE && chan1.reqSize == chan.reqSize - MAX_MSG_SIZE
    requires Lengths(SentTo(o.sent, c)) == [ChunkLen(chan)] + Lengths(SentTo(rest.sent, c))
    requires Delivered(rest, c, chan1.reqSize, k1)
    ensures Delivered(o, c, chan.reqSize, k)
  {
  }

  lemma OnlyChunk<C>(o: Outcome<C>, rest: Outcome<C>, c: C, chan: Chan, k: nat)
    requires k > 0 && o.st == rest.st && chan.reqSize <= MAX_MSG_SIZE
    requires Lengths(SentTo(o.sent, c)) == [ChunkLen(chan)] + Lengths(SentTo(rest.sent, c))
    requires SentTo(rest.sent, c) == [] && c in rest.st.chans && rest.st.chans[c] == Chan(0, false)
    requires c !in rest.st.queue
    ensures Delivered(o, c, chan.reqSize, k)
  {
  }

  lemma {:induction false} NothingWhileUnqueued<C>(modulus: nat, stream: nat -> byte, st: State<C>,
                                                   envs: seq<map<C, Attempt>>, c: C)
    requires Inv(modulus, st) && c in st.chans && c !in st.queue
    ensures var o := Passes(modulus, stream, st, envs);
            SentTo(o.sent, c) == [] && c in o.st.chans && o.st.chans[c] == st.chans[c] && c !in o.st.queue
    decreases |envs|
  {
    if envs != [] {
      PassKeepsInv(modulus, stream, st, envs[0]);
      PassMembers(st, envs[0]);
      var first := Pass(stream, st, envs[0]);
      var from := PassSends(modulus, stream, st, envs[0], c);
      NothingWhileUnqueued(modulus, stream, first.st, envs[1..], c);
      SentToAppend(first.sent, Passes(modulus, stream, first.st, envs[1..]).sent, c);
    }
  }

  // ----- what a run of events delivers to one channel

  /** The channel events of a run; each of them ends with a pass. */
  ghost function Kicks<C>(evs: seq<Event<C>>): nat {
    if evs == [] then 0 else (if evs[0].ChanEvent? then 1 else 0) + Kicks(evs[1..])
  }

  /** Nobody closes `c` or asks for more on it, and every attempt for it goes through. */
  ghost predicate Undisturbed<C>(ev: Event<C>, c: C) {
    ev.ChanEvent? ==> At(ev.env, c) == Attempt(true, Sent) && (ev.c == c ==> !ev.hup && ev.msg.NoMessage?)
  }

  ghost predicate AllUndisturbed<C>(evs: seq<Event<C>>, c: C) {
    forall i :: 0 <= i < |evs| ==> Undisturbed(evs[i], c)
  }

  lemma CloseSpares<C>(st: State<C>, other: C, c: C)
    requires Distinct(st.queue) && c in st.chans && other != c
    ensures var st1 := Close(st, other);
            c in st1.chans && st1.chans[c] == st.chans[c] && (c in st1.queue <==> c in st.queue)
  {
    RemovedMembers(st.queue, other);
  }

  lemma ExtendSpares<C>(modulus: nat, st: State<C>, other: C, c: C, len: nat)
    requires modulus > 0 && c in st.chans && other in st.chans && other != c
    ensures var st1 := Extend(modulus, st, other, len);
            c in st1.chans && st1.chans[c] == st.chans[c] && (c in st1.queue <==> c in st.queue)
  {
  }

  /** Before the pass of such an event, the channel is as it was, and queued if it was. */
  lemma UndisturbedBeforeKick<C>(modulus: nat, st: State<C>, ev: Event<C>, c: C)
    requires IsSizeModulus(modulus) && Inv(modulus, st) && Enabled(st, ev) && ev.ChanEvent?
    requires c in st.chans && !st.chans[c].blocked && Undisturbed(ev, c)
    ensures var st1 := BeforeKick(modulus, st, ev);
            c in st1.chans && st1.chans[c] == st.chans[c] && (c in st1.queue <==> c in st.queue)
  {
    var st1 := Unblock(st, ev.c, ev.unblocked);
    assert st1.queue == st.queue && c in st1.chans && st1.chans[c] == st.chans[c];
    if ev.c != c {
      CloseSpares(st, ev.c, c);
      CloseSpares(st1, ev.c, c);
      if ev.msg.Req? {
        ExtendSpares(modulus, st1, ev.c, c, ev.msg.len);
      }
    }
  }

  lemma StepDelivers<C>(modulus: nat, stream: nat -> byte, st: State<C>, ev: Event<C>, c: C)
    requires IsSizeModulus(modulus) && Inv(modulus, st) && Enabled(st, ev) && ev.ChanEvent?
    requires c in st.queue && !st.chans[c].blocked && Undisturbed(ev, c)
    ensures var n, o := st.chans[c].reqSize, Step(modulus, stream, st, ev);
            && Lengths(SentTo(o.sent, c)) == [ChunkLen(st.chans[c])]
            && c in o.st.chans && o.st.chans[c] == Chan(n - ChunkLen(st.chans[c]), false)
            && (c in o.st.queue <==> n > MAX_MSG_SIZE)
  {
    BeforeKickKeepsInv(modulus, st, ev);
    UndisturbedBeforeKick(modulus, st, ev, c);
    PassDelivers(modulus, stream, BeforeKick(modulus, st, ev), ev.env, c);
  }

  /** An event of another kind, or while the channel waits for nothing, leaves it alone. */
  lemma StepSparesChannel<C>(modulus: nat, stream: nat -> byte, st: State<C>, ev: Event<C>, c: C)
    requires IsSizeModulus(modulus) && Inv(modulus, st) && Enabled(st, ev)
    requires c in st.chans && !st.chans[c].blocked && Undisturbed(ev, c)
    requires ev.ChanEvent? ==> c !in st.queue
    ensures var o := Step(modulus, stream, st, ev);
            && SentTo(o.sent, c) == [] && c in o.st.chans && o.st.chans[c] == st.chans[c]
            && (c in o.st.queue <==> c in st.queue)
  {
    if ev.ChanEvent? {
      BeforeKickKeepsInv(modulus, st, ev);
      UndisturbedBeforeKick(modulus, st, ev, c);
      var st1 := BeforeKick(modulus, st, ev);
      PassMembers(st1, ev.env);
      var from := PassSends(modulus, stream, st1, ev.env, c);
    }
  }

  lemma NoChunk<C>(o: Outcome<C>, rest: Outcome<C>, c: C, n: nat, k: nat)
    requires o.st == rest.st && SentTo(o.sent, c) == [] + SentTo(rest.sent, c) && Delivered(rest, c, n, k)
    ensures Delivered(o, c, n, k)
  {
    assert SentTo(o.sent, c) == SentTo(rest.sent, c);
  }

  lemma RunSplit<C>(modulus: nat, stream: nat -> byte, st: State<C>, evs: seq<Event<C>>, c: C)
    requires IsSizeModulus(modulus) && Inv(modulus, st) && Runs(modulus, stream, st, evs) && evs != []
    ensures Enabled(st, evs[0]) && Inv(modulus, Step(modulus, stream, st, evs[0]).st)
    ensures Runs(modulus, stream, Step(modulus, stream, st, evs[0]).st, evs[1..])
    ensures var first, o := Step(modulus, stream, st, evs[0]), Run(modulus, stream, st, evs);
            var rest := Run(modulus, stream, first.st, evs[1..]);
            && o.st == rest.st && SentTo(o.sent, c) == SentTo(first.sent, c) + SentTo(rest.sent, c)
            && Lengths(SentTo(o.sent, c)) == Lengths(SentTo(first.sent, c)) + Lengths(SentTo(rest.sent, c))
  {
    StepKeepsInv(modulus, stream, st, evs[0]);
    var first := Step(modulus, stream, st, evs[0]);
    var rest := Run(modulus, stream, first.st, evs[1..]);
    SentToAppend(first.sent, rest.sent, c);
    LengthsAppend(SentTo(first.sent, c), SentTo(rest.sent, c));
  }

  lemma {:induction false} NothingMoreInRun<C>(modulus: nat, stream: nat -> byte, st: State<C>,
                                               evs: seq<Event<C>>, c: C)
    requires IsSizeModulus(modulus) && Inv(modulus, st) && Runs(modulus, stream, st, evs)
    requires c in st.chans && c !in st.queue && AllUndisturbed(evs, c)
    ensures var o := Run(modulus, stream, st, evs);
            SentTo(o.sent, c) == [] && c in o.st.chans && o.st.chans[c] == Chan(0, false) && c !in o.st.queue
    decreases |evs|
  {
    if evs != [] {
      RunSplit(modulus, stream, st, evs, c);
      StepSparesChannel(modulus, stream, st, evs[0], c);
      NothingMoreInRun(modulus, stream, Step(modulus, stream, st, evs[0]).st, evs[1..], c);
    }
  }

  /**
   Delivery in the service as it is, one pass per channel event: a waiting, unblocked
   channel that is left alone and whose own attempts succeed has had `min(n, 4096 k)`
   bytes after `k` channel events of any clients, in full chunks but the last, whatever
   else happens in between.
   */
  lemma {:induction false} RunDelivers<C>(modulus: nat, stream: nat -> byte, st: State<C>,
                                          evs: seq<Event<C>>, c: C)
    requires IsSizeModulus(modulus) && Inv(modulus, st) && Runs(modulus, stream, st, evs)
    requires c in st.queue && !st.chans[c].blocked && AllUndisturbed(evs, c)
    ensures Delivered(Run(modulus, stream, st, evs), c, st.chans[c].reqSize, Kicks(evs))
    decreases |evs|
  {
    if evs != [] {
      RunSplit(modulus, stream, st, evs, c);
      var st1, rest := Step(modulus, stream, st, evs[0]).st, evs[1..];
      var o, o1 := Run(modulus, stream, st, evs), Run(modulus, stream, st1, rest);
      if !evs[0].ChanEvent? {
        StepSparesChannel(modulus, stream, st, evs[0], c);
        RunDelivers(modulus, stream, st1, rest, c);
        NoChunk(o, o1, c, st.chans[c].reqSize, Kicks(rest));
      } else {
        StepDelivers(modulus, stream, st, evs[0], c);
        if st.chans[c].reqSize > MAX_MSG_SIZE {
          RunDelivers(modulus, stream, st1, rest, c);
          FullChunkFirst(o, o1, c, st.chans[c], st1.chans[c], Kicks(evs), Kicks(rest));
        } else {
          NothingMoreInRun(modulus, stream, st1, rest, c);
          OnlyChunk(o, o1, c, st.chans[c], Kicks(evs));
        }
      }
    }
  }
}
