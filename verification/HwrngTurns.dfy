/**
 One event of the random number service as a single channel sees it, and what comes
 of it over runs for a channel that is blocked, or that others might overtake.
 */
module HwrngTurns {
  import opened Bytes
  import opened CounterProvider
  import opened HwrngSpec
  import opened HwrngRuns

  // ----- one event

  /** The event hangs the channel up, or brings a message from it that cannot be read. */
  ghost predicate Closes<C>(ev: Event<C>, c: C) {
    ev.ChanEvent? && ev.c == c && (ev.hup || ev.msg.BadMessage?)
  }

  /** The channel is in the queue when the pass of the event begins. */
  ghost predicate Waits<C>(st: State<C>, ev: Event<C>, c: C) {
    c in st.queue || (ev.ChanEvent? && ev.c == c && ev.msg.Req?)
  }

  /** The channel is blocked when the pass of the event begins. */
  ghost predicate BlockedIn<C>(st: State<C>, ev: Event<C>, c: C)
    requires c in st.chans
  {
    st.chans[c].blocked && !(ev.ChanEvent? && ev.c == c && ev.unblocked)
  }

  /** The sum of two numbers in a `size_t`. */
  ghost function Plus(a: nat, b: nat, modulus: nat): nat {
    if a + b >= modulus then a + b - modulus else a + b
  }

  /** What the channel is owed when the pass of the event begins, in a `size_t`. */
  ghost function Wanted<C>(modulus: nat, st: State<C>, ev: Event<C>, c: C): nat
    requires c in st.chans
  {
    Plus(st.chans[c].reqSize, RequestedBy(ev, c), modulus)
  }

  /** The channel got nothing and is closed. */
  ghost predicate Gone<C>(o: Outcome<C>, c: C) {
    SentTo(o.sent, c) == [] && c !in o.st.chans && c !in o.st.queue
  }

  /** It got nothing and waits for nothing. */
  ghost predicate Rests<C>(o: Outcome<C>, c: C) {
    SentTo(o.sent, c) == [] && c !in o.st.queue && c in o.st.chans && o.st.chans[c] == Chan(0, false)
  }

  /** It got nothing and waits for `n` bytes, blocked. */
  ghost predicate WaitsBlocked<C>(o: Outcome<C>, c: C, n: nat) {
    SentTo(o.sent, c) == [] && c in o.st.queue && c in o.st.chans && o.st.chans[c] == Chan(n, true)
  }

  /** Of the `n` bytes it was owed it got one message, and it waits for the others. */
  ghost predicate GotChunk<C>(o: Outcome<C>, c: C, n: nat) {
    var len := if n > 4096 then 4096 else n;
    && Lengths(SentTo(o.sent, c)) == [len]
    && c in o.st.chans && o.st.chans[c] == Chan(n - len, false) && (c in o.st.queue <==> n > 4096)
  }

  lemma BeforeTurnOfAnother<C>(modulus: nat, st: State<C>, ev: Event<C>, c: C)
    requires IsSizeModulus(modulus) && Inv(modulus, st) && Enabled(st, ev) && ev.ChanEvent?
    requires c in st.chans && ev.c != c
    ensures var st1 := BeforeKick(modulus, st, ev);
            && c in st1.chans && st1.chans[c] == st.chans[c] && (c in st1.queue <==> c in st.queue)
  {
    var st1 := Unblock(st, ev.c, ev.unblocked);
    CloseSpares(st, ev.c, c);
    CloseSpares(st1, ev.c, c);
    if ev.msg.Req? {
      ExtendSpares(modulus, st1, ev.c, c, ev.msg.len);
    }
  }

  /** A first request and a further one come to the same sum. */
  lemma ExtendGives<C>(modulus: nat, st: State<C>, c: C, len: nat)
    requires IsSizeModulus(modulus) && Inv(modulus, st) && c in st.chans && len < 0x1_0000_0000
    ensures var st1 := Extend(modulus, st, c, len);
            && c in st1.queue && c in st1.chans
            && st1.chans[c] == Chan(Plus(st.chans[c].reqSize, len, modulus), st.chans[c].blocked)
  {
    WrapOnce(st.chans[c].reqSize, len, modulus);
  }

  lemma BeforeOwnTurn<C>(modulus: nat, st: State<C>, ev: Event<C>, c: C)
    requires IsSizeModulus(modulus) && Inv(modulus, st) && Enabled(st, ev) && ev.ChanEvent?
    requires c in st.chans && ev.c == c
    ensures var st1 := BeforeKick(modulus, st, ev);
            if Closes(ev, c) then
              c !in st1.chans && c !in st1.queue
            else
              && c in st1.chans && st1.chans[c] == Chan(Wanted(modulus, st, ev, c), BlockedIn(st, ev, c))
              && (c in st1.queue <==> Waits(st, ev, c))
  {
    RemovedMembers(st.queue, c);
    var st1 := Unblock(st, c, ev.unblocked);
    if !ev.hup && ev.msg.Req? {
      UnblockKeepsInv(modulus, st, c);
      ExtendGives(modulus, st1, c, ev.msg.len);
    }
  }

  lemma BeforeTurn<C>(modulus: nat, st: State<C>, ev: Event<C>, c: C)
    requires IsSizeModulus(modulus) && Inv(modulus, st) && Enabled(st, ev) && ev.ChanEvent? && c in st.chans
    ensures var st1 := BeforeKick(modulus, st, ev);
            if Closes(ev, c) then
              c !in st1.chans && c !in st1.queue
            else
              && c in st1.chans && st1.chans[c] == Chan(Wanted(modulus, st, ev, c), BlockedIn(st, ev, c))
              && (c in st1.queue <==> Waits(st, ev, c))
  {
    if ev.c == c {
      BeforeOwnTurn(modulus, st, ev, c);
    } else {
      BeforeTurnOfAnother(modulus, st, ev, c);
    }
  }

  lemma TurnInPass<C>(modulus: nat, stream: nat -> byte, st: State<C>, env: map<C, Attempt>, c: C)
    requires Inv(modulus, st)
    ensures var o, a := Pass(stream, st, env), At(env, c);
            if c !in st.chans then Gone(o, c)
            else if c !in st.queue then Rests(o, c)
            else if st.chans[c].blocked then WaitsBlocked(o, c, st.chans[c].reqSize)
            else if !a.rngOk || a.send == SendError then Gone(o, c)
            else if a.send == NotEnoughBuffer then WaitsBlocked(o, c, st.chans[c].reqSize)
            else GotChunk(o, c, st.chans[c].reqSize)
  {
    PassMembers(st, env);
    var from := PassSends(modulus, stream, st, env, c);
  }

  /**
   What an event does to a channel: the channel is closed if the event says so, or if the
   device or the send fails on it; it waits on with everything it is owed while it is
   blocked, or if there is no room for the message; and otherwise it gets one message.
   */
  lemma TurnOf<C>(modulus: nat, stream: nat -> byte, st: State<C>, ev: Event<C>, c: C)
    requires IsSizeModulus(modulus) && Inv(modulus, st) && Enabled(st, ev) && ev.ChanEvent? && c in st.chans
    ensures var o, a, n := Step(modulus, stream, st, ev), At(ev.env, c), Wanted(modulus, st, ev, c);
            if Closes(ev, c) then Gone(o, c)
            else if !Waits(st, ev, c) then Rests(o, c)
            else if BlockedIn(st, ev, c) then WaitsBlocked(o, c, n)
            else if !a.rngOk || a.send == SendError then Gone(o, c)
            else if a.send == NotEnoughBuffer then WaitsBlocked(o, c, n)
            else GotChunk(o, c, n)
  {
    BeforeKickKeepsInv(modulus, st, ev);
    BeforeTurn(modulus, st, ev, c);
    TurnInPass(modulus, stream, BeforeKick(modulus, st, ev), ev.env, c);
  }

  // ----- blocked, and unblocked again

  /** Nothing in the event closes or unblocks the channel. */
  ghost predicate LeavesBlocked<C>(ev: Event<C>, c: C) {
    ev.ChanEvent? && ev.c == c ==> !ev.hup && !ev.unblocked && !ev.msg.BadMessage?
  }

  lemma BlockedTurn<C>(modulus: nat, stream: nat -> byte, st: State<C>, ev: Event<C>, c: C)
    requires IsSizeModulus(modulus) && Inv(modulus, st) && Enabled(st, ev)
    requires c in st.queue && st.chans[c].blocked && LeavesBlocked(ev, c)
    ensures WaitsBlocked(Step(modulus, stream, st, ev), c, Wanted(modulus, st, ev, c))
  {
    if ev.ChanEvent? {
      TurnOf(modulus, stream, st, ev, c);
    }
  }

  /** What a channel owed `owed` bytes is owed after these events if it gets nothing. */
  ghost function OwedAfterAll<C>(modulus: nat, owed: nat, evs: seq<Event<C>>, c: C): nat
    decreases |evs|
  {
    if evs == [] then owed else OwedAfterAll(modulus, Plus(owed, RequestedBy(evs[0], c), modulus), evs[1..], c)
  }

  /** That is the sum of all of it, as far as a `size_t` holds it. */
  lemma {:induction false} OwedIsSum<C>(modulus: nat, owed: nat, evs: seq<Event<C>>, c: C)
    requires IsSizeModulus(modulus) && owed < modulus
    requires forall i :: 0 <= i < |evs| ==> RequestedBy(evs[i], c) < modulus
    ensures OwedAfterAll(modulus, owed, evs, c) == (owed + Requested(evs, c)) % modulus
    decreases |evs|
  {
    if evs != [] {
      var next, rest := Plus(owed, RequestedBy(evs[0], c), modulus), evs[1..];
      OwedIsSum(modulus, next, rest, c);
      OneTurnLess(next + Requested(rest, c), owed + Requested(evs, c), modulus);
    }
  }

  lemma OneTurnLess(a: nat, b: nat, modulus: nat)
    requires IsSizeModulus(modulus) && (b == a || b == a + modulus)
    ensures a % modulus == b % modulus
  {
    var q, r := a / modulus, a % modulus;
    DividesInto(a, modulus, q, r);
    DividesInto(b, modulus, if b == a then q else q + 1, r);
  }

  lemma StillWaits<C>(o: Outcome<C>, rest: Outcome<C>, c: C, n: nat)
    requires o.st == rest.st && SentTo(o.sent, c) == [] + SentTo(rest.sent, c) && WaitsBlocked(rest, c, n)
    ensures WaitsBlocked(o, c, n)
  {
    assert SentTo(o.sent, c) == SentTo(rest.sent, c);
  }

  /**
   As long as nothing closes or unblocks it, a blocked channel is passed over: it gets
   nothing, and stays open and queued, owed what it was and what it asks for meanwhile.
   */
  lemma {:induction false} BlockedWaits<C>(modulus: nat, stream: nat -> byte, st: State<C>, evs: seq<Event<C>>, c: C)
    requires IsSizeModulus(modulus) && Inv(modulus, st) && Runs(modulus, stream, st, evs)
    requires c in st.queue && st.chans[c].blocked && forall i :: 0 <= i < |evs| ==> LeavesBlocked(evs[i], c)
    ensures WaitsBlocked(Run(modulus, stream, st, evs), c, OwedAfterAll(modulus, st.chans[c].reqSize, evs, c))
    decreases |evs|
  {
    if evs != [] {
      RunSplit(modulus, stream, st, evs, c);
      BlockedTurn(modulus, stream, st, evs[0], c);
      var st1, rest := Step(modulus, stream, st, evs[0]).st, evs[1..];
      BlockedWaits(modulus, stream, st1, rest, c);
      StillWaits(Run(modulus, stream, st, evs), Run(modulus, stream, st1, rest), c,
                 OwedAfterAll(modulus, st.chans[c].reqSize, evs, c));
    }
  }

  lemma RestsInRun<C>(modulus: nat, stream: nat -> byte, st: State<C>, evs: seq<Event<C>>, c: C)
    requires IsSizeModulus(modulus) && Inv(modulus, st) && Runs(modulus, stream, st, evs)
    requires c in st.chans && c !in st.queue && AllUndisturbed(evs, c)
    ensures Rests(Run(modulus, stream, st, evs), c)
  {
    NothingMoreInRun(modulus, stream, st, evs, c);
  }

  lemma UnblockedTurn<C>(modulus: nat, stream: nat -> byte, st: State<C>, ev: Event<C>, c: C)
    requires IsSizeModulus(modulus) && Inv(modulus, st) && Enabled(st, ev)
    requires c in st.queue && Undisturbed(ev, c) && ev.ChanEvent? && ev.c == c && ev.unblocked
    ensures GotChunk(Step(modulus, stream, st, ev), c, st.chans[c].reqSize)
  {
    TurnOf(modulus, stream, st, ev, c);
  }

  /**
   From the event on that unblocks it, a blocked channel is served again: left alone and
   with its own attempts succeeding, it has had `min(n, 4096 k)` of its `n` bytes after
   `k` channel events, that one being the first of them.
   */
  lemma UnblockedDelivers<C>(modulus: nat, stream: nat -> byte, st: State<C>, evs: seq<Event<C>>, c: C)
    requires IsSizeModulus(modulus) && Inv(modulus, st) && Runs(modulus, stream, st, evs)
    requires c in st.queue && AllUndisturbed(evs, c)
    requires evs != [] && evs[0].ChanEvent? && evs[0].c == c && evs[0].unblocked
    ensures Delivered(Run(modulus, stream, st, evs), c, st.chans[c].reqSize, Kicks(evs))
  {
    RunSplit(modulus, stream, st, evs, c);
    UnblockedTurn(modulus, stream, st, evs[0], c);
    var st1, rest := Step(modulus, stream, st, evs[0]).st, evs[1..];
    var o, o1 := Run(modulus, stream, st, evs), Run(modulus, stream, st1, rest);
    if st.chans[c].reqSize > 4096 {
      RunDelivers(modulus, stream, st1, rest, c);
      FullChunkFirst(o, o1, c, st.chans[c], st1.chans[c], Kicks(evs), Kicks(rest));
    } else {
      RestsInRun(modulus, stream, st1, rest, c);
      OnlyChunk(o, o1, c, st.chans[c], Kicks(evs));
    }
  }

  lemma ConcatTail<C>(evs: seq<Event<C>>, before: seq<Event<C>>, after: seq<Event<C>>)
    requires evs == before + after && before != []
    ensures evs != [] && evs[0] == before[0] && evs[1..] == before[1..] + after
  {
  }

  /** The whole of it: blocked during `before`, unblocked by the first event of `after`, and served from then on. */
  lemma {:induction false} BlockedThenDelivered<C>(modulus: nat, stream: nat -> byte, st: State<C>, evs: seq<Event<C>>,
                                                before: seq<Event<C>>, after: seq<Event<C>>, c: C)
    requires IsSizeModulus(modulus) && Inv(modulus, st) && Runs(modulus, stream, st, evs) && evs == before + after
    requires c in st.queue && st.chans[c].blocked && forall i :: 0 <= i < |before| ==> LeavesBlocked(before[i], c)
    requires AllUndisturbed(after, c) && after != [] && after[0].ChanEvent? && after[0].c == c && after[0].unblocked
    ensures Delivered(Run(modulus, stream, st, evs), c,
                      OwedAfterAll(modulus, st.chans[c].reqSize, before, c), Kicks(after))
    decreases |before|
  {
    if before == [] {
      assert evs == after;
      UnblockedDelivers(modulus, stream, st, evs, c);
    } else {
      ConcatTail(evs, before, after);
      RunSplit(modulus, stream, st, evs, c);
      BlockedTurn(modulus, stream, st, evs[0], c);
      var st1 := Step(modulus, stream, st, evs[0]).st;
      BlockedThenDelivered(modulus, stream, st1, evs[1..], before[1..], after, c);
      NoChunk(Run(modulus, stream, st, evs), Run(modulus, stream, st1, evs[1..]), c,
              OwedAfterAll(modulus, st.chans[c].reqSize, before, c), Kicks(after));
    }
  }

  // ----- first come, first served, over runs

  /** `c` stands in the queue, and `d` stands before it. */
  ghost predicate Before<C>(queue: seq<C>, d: C, c: C) {
    exists i, j :: 0 <= i < j < |queue| && queue[i] == d && queue[j] == c
  }

  lemma BeforeIn<C>(queue: seq<C>, i: nat, j: nat, d: C, c: C)
    requires i < j < |queue| && queue[i] == d && queue[j] == c
    ensures Before(queue, d, c)
  {
  }

  lemma BeforeLast<C>(queue: seq<C>, d: C, c: C)
    requires d in queue
    ensures Before(queue + [c], d, c)
  {
    var i :| 0 <= i < |queue| && queue[i] == d;
    BeforeIn(queue + [c], i, |queue|, d, c);
  }

  lemma BeforeAppend<C>(queue: seq<C>, rest: seq<C>, d: C, c: C)
    requires Before(queue, d, c)
    ensures Before(queue + rest, d, c)
  {
    var i, j :| 0 <= i < j < |queue| && queue[i] == d && queue[j] == c;
    BeforeIn(queue + rest, i, j, d, c);
  }

  lemma {:induction false} RemovedKeepsOrder<C>(queue: seq<C>, other: C, d: C, c: C)
    requires Before(queue, d, c) && d != other && c != other
    ensures Before(Removed(queue, other), d, c)
  {
    var i, j :| 0 <= i < j < |queue| && queue[i] == d && queue[j] == c;
    var tail := queue[1..];
    if queue[0] == other {
      BeforeIn(tail, i - 1, j - 1, d, c);
    } else if i == 0 {
      OthersStay(tail, other, c, j - 1);
      var r := Removed(tail, other);
      var k :| 0 <= k < |r| && r[k] == c;
      BeforeIn([d] + r, 0, k + 1, d, c);
    } else {
      BeforeIn(tail, i - 1, j - 1, d, c);
      RemovedKeepsOrder(tail, other, d, c);
      var r := Removed(tail, other);
      var i', j' :| 0 <= i' < j' < |r| && r[i'] == d && r[j'] == c;
      BeforeIn([queue[0]] + r, i' + 1, j' + 1, d, c);
    }
  }

  lemma {:induction false} OthersStay<C>(queue: seq<C>, other: C, c: C, k: nat)
    requires k < |queue| && queue[k] == c && c != other
    ensures c in Removed(queue, other)
  {
    if queue[0] == other {
      assert queue[1..][k - 1] == c;
    } else if k > 0 {
      OthersStay(queue[1..], other, c, k - 1);
    }
  }

  lemma {:induction false} SelectKeepsOrder<C>(queue: seq<C>, chosen: set<C>, k: nat, i: nat, j: nat)
    requires i < j < k <= |queue| && queue[i] in chosen && queue[j] in chosen
    ensures Before(Select(queue, chosen, k), queue[i], queue[j])
  {
    var front := Select(queue, chosen, k - 1);
    if j == k - 1 {
      SelectedFrom(queue, chosen, k - 1, i);
      BeforeLast(front, queue[i], queue[j]);
    } else {
      SelectKeepsOrder(queue, chosen, k - 1, i, j);
      BeforeAppend(front, if queue[k - 1] in chosen then [queue[k - 1]] else [], queue[i], queue[j]);
    }
  }

  lemma {:induction false} SelectedFrom<C>(queue: seq<C>, chosen: set<C>, k: nat, i: nat)
    requires i < k <= |queue| && queue[i] in chosen
    ensures queue[i] in Select(queue, chosen, k)
  {
    if i < k - 1 {
      SelectedFrom(queue, chosen, k - 1, i);
    }
  }

  lemma PassKeepsOrder<C>(modulus: nat, stream: nat -> byte, st: State<C>, env: map<C, Attempt>, d: C, c: C)
    requires Inv(modulus, st) && Before(st.queue, d, c)
    requires var queue := Pass(stream, st, env).st.queue; d in queue && c in queue
    ensures Before(Pass(stream, st, env).st.queue, d, c)
  {
    PassIsFifo(stream, st, env);
    PassMembers(st, env);
    var waiting := set e | e in st.queue && StaysQueued(st.chans[e], FateOf(st.chans[e], At(env, e)));
    var i, j :| 0 <= i < j < |st.queue| && st.queue[i] == d && st.queue[j] == c;
    SelectKeepsOrder(st.queue, waiting, |st.queue|, i, j);
  }

  /** A channel that is not queued yet comes to stand behind those that are. */
  lemma OwnEventKeepsOrder<C>(modulus: nat, st: State<C>, ev: Event<C>, d: C, c: C)
    requires IsSizeModulus(modulus) && Inv(modulus, st) && Enabled(st, ev) && ev.ChanEvent?
    requires d in st.queue && d != c && (c in st.queue ==> Before(st.queue, d, c))
    requires var queue := BeforeKick(modulus, st, ev).queue; d in queue && c in queue
    ensures Before(BeforeKick(modulus, st, ev).queue, d, c)
  {
    BeforeKickKeepsInv(modulus, st, ev);
    RemovedMembers(st.queue, ev.c);
    var queue := BeforeKick(modulus, st, ev).queue;
    if queue == Removed(st.queue, ev.c) {
      RemovedKeepsOrder(st.queue, ev.c, d, c);
    } else if c !in st.queue {
      assert queue == st.queue + [c];
      BeforeLast(st.queue, d, c);
    } else {
      assert queue == st.queue || queue == st.queue + [ev.c];
      BeforeAppend(st.queue, [ev.c], d, c);
    }
  }

  lemma StepKeepsOrder<C>(modulus: nat, stream: nat -> byte, st: State<C>, ev: Event<C>, d: C, c: C)
    requires IsSizeModulus(modulus) && Inv(modulus, st) && Enabled(st, ev)
    requires d in st.queue && d != c && (c in st.queue ==> Before(st.queue, d, c))
    requires var queue := Step(modulus, stream, st, ev).st.queue; d in queue && c in queue
    ensures Before(Step(modulus, stream, st, ev).st.queue, d, c)
  {
    if ev.ChanEvent? {
      BeforeKickKeepsInv(modulus, st, ev);
      var st1 := BeforeKick(modulus, st, ev);
      PassMembers(st1, ev.env);
      OwnEventKeepsOrder(modulus, st, ev, d, c);
      PassKeepsOrder(modulus, stream, st1, ev.env, d, c);
    }
  }

  /** The channel is in the queue after every event. */
  ghost predicate QueuedThroughout<C>(modulus: nat, stream: nat -> byte, st: State<C>, evs: seq<Event<C>>, c: C)
    requires IsSizeModulus(modulus) && Inv(modulus, st) && Runs(modulus, stream, st, evs)
    decreases |evs|
  {
    && c in st.queue
    && (evs != [] ==>
          (StepKeepsInv(modulus, stream, st, evs[0]);
           QueuedThroughout(modulus, stream, Step(modulus, stream, st, evs[0]).st, evs[1..], c)))
  }

  /**
   Nobody overtakes a channel for as long as it waits: whoever was behind it, or was not
   queued, or comes back, or is opened meanwhile, is behind it afterwards if queued.
   */
  lemma {:induction false} NobodyOvertakes<C>(modulus: nat, stream: nat -> byte, st: State<C>, evs: seq<Event<C>>,
                                              d: C, c: C)
    requires IsSizeModulus(modulus) && Inv(modulus, st) && Runs(modulus, stream, st, evs)
    requires d != c && (c in st.queue ==> Before(st.queue, d, c))
    requires QueuedThroughout(modulus, stream, st, evs, d)
    ensures var queue := Run(modulus, stream, st, evs).st.queue; c in queue ==> Before(queue, d, c)
    decreases |evs|
  {
    if evs != [] {
      StepKeepsInv(modulus, stream, st, evs[0]);
      var st1 := Step(modulus, stream, st, evs[0]).st;
      if c in st1.queue {
        StepKeepsOrder(modulus, stream, st, evs[0], d, c);
      }
      NobodyOvertakes(modulus, stream, st1, evs[1..], d, c);
    }
  }
}
