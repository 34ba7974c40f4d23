/**
 The walk over the request list, one visit after the other, on values; and the proof
 that a walk to the end is the pass that `HwrngSpec` describes channel by channel.
 */
module HwrngWalk {
  import opened Bytes
  import opened HwrngSpec

  /** `kept` is behind the walker and stays listed, `rest` is still ahead. */
  datatype WalkState<C> = WalkState(kept: seq<C>, rest: seq<C>, chans: map<C, Chan>, drawn: nat,
                                    needMore: bool, sent: seq<Message<C>>)

  ghost predicate Ready<C>(s: WalkState<C>) {
    Distinct(s.rest) && Known(s.rest, s.chans)
  }

  ghost function Visit<C>(stream: nat -> byte, env: map<C, Attempt>, s: WalkState<C>): (s': WalkState<C>)
    requires Ready(s) && s.rest != []
    ensures Ready(s')
  {
    var c := s.rest[0];
    var chan, attempt := s.chans[c], At(env, c);
    var fate := FateOf(chan, attempt);
    WalkState(s.kept + (if StaysQueued(chan, fate) then [c] else []),
              s.rest[1..],
              if fate.Dropped? then s.chans - {c} else s.chans[c := After(chan, fate)],
              s.drawn + Consumed(chan, attempt),
              s.needMore || (fate.Served? && chan.reqSize > ChunkLen(chan)),
              s.sent + ReplyTo(stream, s.drawn, c, chan, attempt))
  }

  ghost function WalkOn<C>(stream: nat -> byte, env: map<C, Attempt>, s: WalkState<C>): WalkState<C>
    requires Ready(s)
    decreases |s.rest|
  {
    if s.rest == [] then s else WalkOn(stream, env, Visit(stream, env, s))
  }

  /** The open channels after `k` visits. */
  ghost function WalkedChans<C>(queue: seq<C>, chans: map<C, Chan>, env: map<C, Attempt>, k: nat): map<C, Chan>
    requires Known(queue, chans) && k <= |queue|
  {
    if k == 0 then
      chans
    else
      var c := queue[k - 1];
      var m, fate := WalkedChans(queue, chans, env, k - 1), FateOf(chans[c], At(env, c));
      if fate.Dropped? then m - {c} else m[c := After(chans[c], fate)]
  }

  ghost predicate WalkedNeedMore<C>(queue: seq<C>, chans: map<C, Chan>, env: map<C, Attempt>, k: nat)
    requires Known(queue, chans) && k <= |queue|
  {
    k > 0 &&
    (|| WalkedNeedMore(queue, chans, env, k - 1)
     || (var c := queue[k - 1];
         FateOf(chans[c], At(env, c)).Served? && chans[c].reqSize > ChunkLen(chans[c])))
  }

  lemma {:induction false} NotVisitedYet<C>(queue: seq<C>, chans: map<C, Chan>, env: map<C, Attempt>, k: nat, j: nat)
    requires Known(queue, chans) && Distinct(queue) && k <= j < |queue|
    ensures queue[j] in WalkedChans(queue, chans, env, k)
    ensures WalkedChans(queue, chans, env, k)[queue[j]] == chans[queue[j]]
  {
    if k > 0 {
      NotVisitedYet(queue, chans, env, k - 1, j);
    }
  }

  /** Visiting one channel after the other does to each what the pass promises for it. */
  lemma {:induction false} WalkedSurvivors<C>(queue: seq<C>, chans: map<C, Chan>, env: map<C, Attempt>, k: nat)
    requires Known(queue, chans) && Distinct(queue) && k <= |queue|
    ensures WalkedChans(queue, chans, env, k) == Survivors(queue[..k], chans, env)
  {
    if k > 0 {
      WalkedSurvivors(queue, chans, env, k - 1);
      assert queue[..k] == queue[..k - 1] + [queue[k - 1]];
      assert queue[k - 1] !in queue[..k - 1];
    }
  }

  lemma {:induction false} WalkedVerdict<C>(queue: seq<C>, chans: map<C, Chan>, env: map<C, Attempt>, k: nat)
    requires Known(queue, chans) && k <= |queue|
    ensures WalkedNeedMore(queue, chans, env, k) <==> NeedMore(queue[..k], chans, env)
  {
    if k > 0 {
      WalkedVerdict(queue, chans, env, k - 1);
      assert queue[..k] == queue[..k - 1] + [queue[k - 1]];
    }
  }

  /** Where the walk stands after `k` visits. */
  ghost function AfterVisits<C>(stream: nat -> byte, env: map<C, Attempt>, st: State<C>, k: nat): WalkState<C>
    requires Known(st.queue, st.chans) && k <= |st.queue|
  {
    WalkState(Kept(st.queue, st.chans, env, k),
              st.queue[k..],
              WalkedChans(st.queue, st.chans, env, k),
              st.drawn + TotalConsumed(st.queue, st.chans, env, k),
              WalkedNeedMore(st.queue, st.chans, env, k),
              Replies(stream, st.drawn, st.queue, st.chans, env, k))
  }

  lemma OneMoreVisit<C>(stream: nat -> byte, env: map<C, Attempt>, st: State<C>, k: nat)
    requires Known(st.queue, st.chans) && Distinct(st.queue) && k < |st.queue|
    ensures Ready(AfterVisits(stream, env, st, k))
    ensures Visit(stream, env, AfterVisits(stream, env, st, k)) == AfterVisits(stream, env, st, k + 1)
  {
    forall j | k <= j < |st.queue|
      ensures st.queue[j] in WalkedChans(st.queue, st.chans, env, k)
      ensures WalkedChans(st.queue, st.chans, env, k)[st.queue[j]] == st.chans[st.queue[j]]
    {
      NotVisitedYet(st.queue, st.chans, env, k, j);
    }
    assert st.queue[k..][1..] == st.queue[k + 1..];
  }

  /** The first `k` visits of a walk. */
  ghost function Visits<C>(stream: nat -> byte, env: map<C, Attempt>, s: WalkState<C>, k: nat): (s': WalkState<C>)
    requires Ready(s) && k <= |s.rest|
    ensures Ready(s') && |s'.rest| == |s.rest| - k
  {
    if k == 0 then s else Visit(stream, env, Visits(stream, env, s, k - 1))
  }

  lemma {:induction false} WalkOnAfterVisits<C>(stream: nat -> byte, env: map<C, Attempt>, s: WalkState<C>, k: nat)
    requires Ready(s) && k <= |s.rest|
    ensures WalkOn(stream, env, Visits(stream, env, s, k)) == WalkOn(stream, env, s)
  {
    if k > 0 {
      var less := k - 1;
      WalkOnAfterVisits(stream, env, s, less);
      WalkOnStep(stream, env, Visits(stream, env, s, less), Visits(stream, env, s, k));
    }
  }

  lemma WalkOnStep<C>(stream: nat -> byte, env: map<C, Attempt>, s: WalkState<C>, next: WalkState<C>)
    requires Ready(s) && s.rest != [] && next == Visit(stream, env, s)
    ensures WalkOn(stream, env, next) == WalkOn(stream, env, s)
  {
  }

  lemma VisitsStep<C>(stream: nat -> byte, env: map<C, Attempt>, s: WalkState<C>, k: nat, next: nat)
    requires Ready(s) && next == k + 1 <= |s.rest|
    ensures Visits(stream, env, s, next) == Visit(stream, env, Visits(stream, env, s, k))
  {
  }

  lemma {:induction false} VisitsAre<C>(stream: nat -> byte, env: map<C, Attempt>, st: State<C>,
                                        start: WalkState<C>, k: nat)
    requires Known(st.queue, st.chans) && Distinct(st.queue) && k <= |st.queue|
    requires start == WalkState([], st.queue, st.chans, st.drawn, false, [])
    ensures Visits(stream, env, start, k) == AfterVisits(stream, env, st, k)
  {
    if k == 0 {
      assert st.queue[0..] == st.queue;
    } else {
      var less := k - 1;
      VisitsAre(stream, env, st, start, less);
      OneMoreVisit(stream, env, st, less);
      assert less + 1 == k;
      VisitsStep(stream, env, start, less, k);
    }
  }

  /** A walk to the end of the queue is a pass, and its verdict is `need_more`. */
  lemma WalkIsPass<C>(stream: nat -> byte, env: map<C, Attempt>, st: State<C>)
    requires Known(st.queue, st.chans) && Distinct(st.queue)
    ensures var o := Pass(stream, st, env);
            WalkOn(stream, env, WalkState([], st.queue, st.chans, st.drawn, false, [])) ==
            WalkState(o.st.queue, [], o.st.chans, o.st.drawn, NeedMore(st.queue, st.chans, env), o.sent)
  {
    var start, n := WalkState([], st.queue, st.chans, st.drawn, false, []), |st.queue|;
    WalkOnAfterVisits(stream, env, start, n);
    VisitsAre(stream, env, st, start, n);
    WalkedSurvivors(st.queue, st.chans, env, n);
    WalkedVerdict(st.queue, st.chans, env, n);
    assert st.queue[..n] == st.queue && st.queue[n..] == [];
  }
}
