/** With the counter as generator, channels that ask for multiples of 256 bytes get every byte value equally often. */
module BalancedStream {
  import opened Bytes
  import opened CounterProvider
  import opened HwrngSpec
  import opened HwrngRuns

  /** All the bytes sent, in order. */
  ghost function Data<C>(sent: seq<Message<C>>): seq<byte> {
    if sent == [] then [] else sent[0].data + Data(sent[1..])
  }

  /** Every message is a run of counter values whose length is a multiple of 256. */
  ghost predicate WholePeriods<C>(sent: seq<Message<C>>) {
    forall i :: 0 <= i < |sent| ==>
      |sent[i].data| % 256 == 0 && sent[i].data == Window(CounterStream(), sent[i].from, |sent[i].data|)
  }

  lemma {:induction false} WholePeriodsBalance<C>(sent: seq<Message<C>>, b: byte)
    requires WholePeriods(sent)
    ensures |Data(sent)| == TotalBytes(sent)
    ensures 256 * Count(Data(sent), b) == |Data(sent)|
  {
    if sent != [] {
      var m := sent[0];
      WindowIsBalanced(m.from, |m.data| / 256, b);
      assert 256 * (|m.data| / 256) == |m.data|;
      CountAppend(m.data, Data(sent[1..]), b);
      WholePeriodsBalance(sent[1..], b);
    }
  }

  /** The channel is owed a multiple of 256 bytes, if it is open at all. */
  ghost predicate OwedWholePeriods<C>(st: State<C>, c: C) {
    c in st.chans ==> st.chans[c].reqSize % 256 == 0
  }

  /** Everything the channel asks for in the run is a multiple of 256 bytes. */
  ghost predicate AsksWholePeriods<C>(evs: seq<Event<C>>, c: C) {
    forall ev :: ev in evs ==> RequestedBy(ev, c) % 256 == 0
  }

  lemma ExtendKeepsWholePeriods<C>(modulus: nat, st: State<C>, c: C, len: nat)
    requires IsSizeModulus(modulus) && c in st.chans && st.chans[c].reqSize < modulus && len < 0x1_0000_0000
    requires c !in st.queue ==> st.chans[c].reqSize == 0
    requires st.chans[c].reqSize % 256 == 0 && len % 256 == 0
    ensures Extend(modulus, st, c, len).chans[c].reqSize % 256 == 0
  {
    WrapOnce(st.chans[c].reqSize, len, modulus);
    assert modulus % 256 == 0;
  }

  lemma BeforeKickKeepsWholePeriods<C>(modulus: nat, st: State<C>, ev: Event<C>, c: C)
    requires IsSizeModulus(modulus) && Inv(modulus, st) && Enabled(st, ev) && ev.ChanEvent?
    requires OwedWholePeriods(st, c) && RequestedBy(ev, c) % 256 == 0
    ensures OwedWholePeriods(BeforeKick(modulus, st, ev), c)
  {
    if ev.c == c && !ev.hup && ev.msg.Req? {
      ExtendKeepsWholePeriods(modulus, Unblock(st, c, ev.unblocked), c, ev.msg.len);
    }
  }

  lemma PassSendsWholePeriods<C>(modulus: nat, st: State<C>, env: map<C, Attempt>, c: C)
    requires IsSizeModulus(modulus) && Inv(modulus, st) && OwedWholePeriods(st, c)
    ensures var o := Pass(CounterStream(), st, env);
            WholePeriods(SentTo(o.sent, c)) && OwedWholePeriods(o.st, c)
  {
    var from := PassSends(modulus, CounterStream(), st, env, c);
    if c in st.queue {
      ChunkIsWholePeriods(st.chans[c]);
      ReplyIsWholePeriods(from, c, st.chans[c], At(env, c));
    }
  }

  lemma ChunkIsWholePeriods(chan: Chan)
    requires chan.reqSize % 256 == 0
    ensures ChunkLen(chan) % 256 == 0 && (chan.reqSize - ChunkLen(chan)) % 256 == 0
  {
  }

  lemma ReplyIsWholePeriods<C>(from: nat, c: C, chan: Chan, attempt: Attempt)
    requires ChunkLen(chan) % 256 == 0
    ensures WholePeriods(ReplyTo(CounterStream(), from, c, chan, attempt))
  {
  }

  lemma {:induction false} RunSendsWholePeriods<C>(modulus: nat, st: State<C>, evs: seq<Event<C>>, c: C)
    requires IsSizeModulus(modulus) && Inv(modulus, st) && Runs(modulus, CounterStream(), st, evs)
    requires OwedWholePeriods(st, c) && AsksWholePeriods(evs, c)
    ensures WholePeriods(SentTo(Run(modulus, CounterStream(), st, evs).sent, c))
    decreases |evs|
  {
    if evs != [] {
      var ev := evs[0];
      StepKeepsInv(modulus, CounterStream(), st, ev);
      var first := Step(modulus, CounterStream(), st, ev);
      if ev.ChanEvent? {
        BeforeKickKeepsInv(modulus, st, ev);
        BeforeKickKeepsWholePeriods(modulus, st, ev, c);
        PassSendsWholePeriods(modulus, BeforeKick(modulus, st, ev), ev.env, c);
      }
      RunSendsWholePeriods(modulus, first.st, evs[1..], c);
      SentToAppend(first.sent, Run(modulus, CounterStream(), first.st, evs[1..]).sent, c);
    }
  }

  /**
   A channel that asks for multiples of 256 bytes, `256 * k` of them in all, and has
   been served in full, has received every byte value exactly `k` times. Neither the
   other channels' traffic nor chunks dropped on the way make a difference.
   */
  lemma ServedChannelIsBalanced<C>(modulus: nat, st: State<C>, evs: seq<Event<C>>, c: C, k: nat, b: byte)
    requires IsSizeModulus(modulus) && Inv(modulus, st) && Runs(modulus, CounterStream(), st, evs)
    requires OpenThroughout(modulus, CounterStream(), st, evs, c) && AsksWholePeriods(evs, c)
    requires st.chans[c] == Chan(0, false) && Requested(evs, c) == 256 * k
    requires Wraps(modulus, CounterStream(), st, evs, c) == 0
    requires var st' := Run(modulus, CounterStream(), st, evs).st; c in st'.chans && st'.chans[c].reqSize == 0
    ensures Count(Data(SentTo(Run(modulus, CounterStream(), st, evs).sent, c)), b) == k
  {
    RunConserves(modulus, CounterStream(), st, evs, c);
    RunSendsWholePeriods(modulus, st, evs, c);
    WholePeriodsBalance(SentTo(Run(modulus, CounterStream(), st, evs).sent, c), b);
  }
}
