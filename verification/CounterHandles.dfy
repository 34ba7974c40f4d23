/** How long handles live when the tokens come from the sample counter generator. */
module CounterHandles {
  import opened Bytes
  import opened CounterProvider
  import opened AccessToken
  import opened CounterTokens
  import opened HwkeySpec
  import opened HwkeyRuns

  /** The token could have come out of the counter: its first byte determines it. */
  ghost predicate FromCounter(token: seq<byte>) {
    ValidToken(token) && CountsUp(token[..HANDLE_SIZE - 1], token[0])
  }

  lemma FirstByteDecides(t: seq<byte>, t': seq<byte>)
    requires FromCounter(t) && FromCounter(t')
    ensures t == t' <==> t[0] == t'[0]
  {
    if t[0] == t'[0] {
      assert t[..HANDLE_SIZE - 1] == t'[..HANDLE_SIZE - 1];
      assert t == t[..HANDLE_SIZE - 1] + [0] && t' == t'[..HANDLE_SIZE - 1] + [0];
    }
  }

  /** With the counter the token generator needs one draw, and where that starts decides the token. */
  lemma GeneratedToken(drawn: nat, script: DrawScript)
    requires Terminates(CounterStream(), drawn, script)
    ensures script.rejected == 0
    ensures script.ok ==>
              var token := TokenReply(CounterStream(), drawn, script).data;
              FromCounter(token) && token[0] == FirstNonZero(drawn)
  {
    FirstDrawIsAccepted(drawn);
    if script.ok {
      TokenCountsUp(drawn);
      CountUpStep(FirstNonZero(drawn), 0);
      var token := TokenOf(Draw(CounterStream(), drawn, 0));
      assert token[0] == token[..HANDLE_SIZE - 1][0];
    }
  }

  ghost predicate AllFromCounter<S>(st: State<S>) {
    forall e :: e in st.handles ==> FromCounter(e.token)
  }

  lemma AnswerKeepsFromCounter<S>(c: Config, st: State<S>, ev: Event<S>)
    requires c.stream == CounterStream() && AllFromCounter(st) && ev.Request? && Enabled(c, st, ev)
    ensures AllFromCounter(Respond(c, st, ev.s, ev.cmd, ev.env).st)
  {
    if ev.cmd.GetKeyslot? && DrawsToken(c, st, st.sessions[ev.s], CString(ev.cmd.payload), ev.env) {
      GeneratedToken(st.drawn, ev.env.script);
    }
  }

  lemma StepKeepsFromCounter<S>(c: Config, st: State<S>, ev: Event<S>)
    requires c.stream == CounterStream() && AllFromCounter(st) && Enabled(c, st, ev)
    ensures AllFromCounter(Step(c, st, ev).st)
  {
    if ev.Request? {
      AnswerKeepsFromCounter(c, st, ev);
    }
    StepHandles(c, st, ev);
  }

  lemma {:induction false} RunKeepsFromCounter<S>(c: Config, st: State<S>, evs: seq<Event<S>>)
    requires c.stream == CounterStream() && AllFromCounter(st) && Runs(c, st, evs)
    ensures AllFromCounter(Run(c, st, evs))
    decreases |evs|
  {
    if evs != [] {
      StepKeepsFromCounter(c, st, evs[0]);
      RunKeepsFromCounter(c, Step(c, st, evs[0]).st, evs[1..]);
    }
  }

  lemma FirstDrawIsToken(drawn: nat, script: DrawScript)
    requires script == DrawScript(0, true)
    ensures Accepted(Draw(CounterStream(), drawn, 0)) && Terminates(CounterStream(), drawn, script)
    ensures TokenReply(CounterStream(), drawn, script).data == TokenOf(Draw(CounterStream(), drawn, 0))
    ensures BytesUsed(script) == DRAW_SIZE
  {
    FirstDrawIsAccepted(drawn);
  }

  /** A first fetch, with the generator at `st.drawn`. */
  lemma FirstFetch<S>(c: Config, st: State<S>, s: S, id: seq<byte>, k: nat, keys: nat -> Reply)
    requires c.stream == CounterStream() && s in st.sessions && |id| <= MAX_PAYLOAD_SIZE
    requires FindSlot(c.slots, st.sessions[s], CString(id)) == Some(k)
    requires c.slots[k].handler.KeyHandle? && !HasHandle(st.handles, k)
    ensures Accepted(Draw(CounterStream(), st.drawn, 0))
    ensures var ev := Request(s, GetKeyslot(id), Env(keys, true, DrawScript(0, true)), true);
            var token := TokenOf(Draw(CounterStream(), st.drawn, 0));
            && Issues(c, st, ev, k, token)
            && Step(c, st, ev).st == st.(handles := st.handles + [Entry(k, s, token)], drawn := st.drawn + DRAW_SIZE)
  {
    var env := Env(keys, true, DrawScript(0, true));
    FirstDrawIsToken(st.drawn, env.script);
    FirstFetchIssues(c, st, s, id, k, env, TokenReply(c.stream, st.drawn, env.script));
  }

  // ----- when a token is issued again

  /** The event is a delivered first fetch whose draw begins where the counter's next non-zero byte is `first`. */
  ghost predicate DrawsFrom<S>(c: Config, st: State<S>, ev: Event<S>, first: byte)
    requires Enabled(c, st, ev)
  {
    && ev.Request? && ev.cmd.GetKeyslot? && ev.sendOk && ev.env.script.ok
    && DrawsToken(c, st, st.sessions[ev.s], CString(ev.cmd.payload), ev.env)
    && FirstNonZero(st.drawn) == first
  }

  ghost predicate NeverDrawsFrom<S>(c: Config, st: State<S>, evs: seq<Event<S>>, first: byte)
    requires Runs(c, st, evs)
    decreases |evs|
  {
    evs == [] || (!DrawsFrom(c, st, evs[0], first) && NeverDrawsFrom(c, Step(c, st, evs[0]).st, evs[1..], first))
  }

  /** The token appears in the table anew. */
  ghost predicate Appears<S>(st: State<S>, st': State<S>, token: seq<byte>) {
    exists e :: e in st'.handles && e.token == token && e !in st.handles
  }

  lemma NewEntryAppears<S>(c: Config, st: State<S>, ev: Event<S>, token: seq<byte>)
    requires c.stream == CounterStream() && Enabled(c, st, ev) && FromCounter(token)
    requires DrawsFrom(c, st, ev, token[0])
    ensures Appears(st, Step(c, st, ev).st, token)
  {
    var reply := TokenReply(c.stream, st.drawn, ev.env.script);
    GeneratedToken(st.drawn, ev.env.script);
    FirstByteDecides(token, reply.data);
    var k := FindSlot(c.slots, st.sessions[ev.s], CString(ev.cmd.payload)).value;
    assert Step(c, st, ev).st.handles == st.handles + [Entry(k, ev.s, token)];
    assert Entry(k, ev.s, token) in Step(c, st, ev).st.handles;
    assert Entry(k, ev.s, token) in st.handles ==> HasHandle(st.handles, k);
  }

  /** An entry that was not there before is the one just made for the asking session. */
  lemma NewEntryIsOwned<S>(c: Config, st: State<S>, ev: Event<S>, e: Entry<S>)
    requires Enabled(c, st, ev) && e in Step(c, st, ev).st.handles && e !in st.handles
    ensures ev.Request? && ev.cmd.GetKeyslot? && ev.sendOk && ev.env.script.ok && e.owner == ev.s
    ensures DrawsToken(c, st, st.sessions[ev.s], CString(ev.cmd.payload), ev.env)
    ensures e.token == TokenReply(c.stream, st.drawn, ev.env.script).data
  {
    StepHandles(c, st, ev);
  }

  lemma OnlyDrawsAppear<S>(c: Config, st: State<S>, ev: Event<S>, token: seq<byte>, e: Entry<S>)
    requires c.stream == CounterStream() && Enabled(c, st, ev) && FromCounter(token)
    requires e in Step(c, st, ev).st.handles && e.token == token && e !in st.handles
    ensures DrawsFrom(c, st, ev, token[0])
  {
    NewEntryIsOwned(c, st, ev, e);
    GeneratedToken(st.drawn, ev.env.script);
  }

  /**
   A token that is not issued again is one whose first byte no later draw begins with:
   over any run, other draws from the generator included, exactly that decides it.
   */
  lemma {:induction false} NotReissuedIff<S>(c: Config, st: State<S>, evs: seq<Event<S>>, token: seq<byte>)
    requires c.stream == CounterStream() && Runs(c, st, evs) && FromCounter(token)
    ensures NotReissued(c, st, evs, token) <==> NeverDrawsFrom(c, st, evs, token[0])
    decreases |evs|
  {
    if evs != [] {
      var st' := Step(c, st, evs[0]).st;
      if DrawsFrom(c, st, evs[0], token[0]) {
        NewEntryAppears(c, st, evs[0], token);
      }
      if e :| e in st'.handles && e.token == token && e !in st.handles {
        OnlyDrawsAppear(c, st, evs[0], token, e);
      }
      NotReissuedIff(c, st', evs[1..], token);
    }
  }

  /**
   The life of a handle with the counter generator, in terms of first bytes: no token
   in the table at the issue begins with the byte the counter is at, and no draw after
   it begins there again. In between anyone may draw from the generator.
   */
  lemma HandleLifetimeWithCounter<S>(c: Config, past: seq<Event<S>>, issue: Event<S>, k: nat, token: seq<byte>,
                                     evs: seq<Event<S>>, redeem: Event<S>)
    requires c.stream == CounterStream() && Runs(c, Start<S>(), past)
    requires Issues(c, Run(c, Start<S>(), past), issue, k, token)
    requires var st := Run(c, Start<S>(), past);
             forall e :: e in st.handles && |e.token| > 0 ==> e.token[0] != FirstNonZero(st.drawn)
    requires var st := Run(c, Start<S>(), past);
             Runs(c, Step(c, st, issue).st, evs) &&
             NeverDrawsFrom(c, Step(c, st, issue).st, evs, FirstNonZero(st.drawn))
    requires NoSlotNamed(c.slots, CString(token))
    requires var st' := Run(c, Step(c, Run(c, Start<S>(), past), issue).st, evs);
             Enabled(c, st', redeem) && redeem.Request? && redeem.cmd.GetKeyslot? && redeem.sendOk
    requires CString(redeem.cmd.payload) == CString(token)
    ensures var st' := Run(c, Step(c, Run(c, Start<S>(), past), issue).st, evs);
            Step(c, st', redeem) ==
            Outcome(st', Some(
              if !ClosedDuring(evs, issue.s) && st'.sessions[redeem.s] in c.slots[k].handler.allowed
              then redeem.env.keys(k) else Reply(NotFound, [])))
  {
    var st := Run(c, Start<S>(), past);
    ReachableStatesKeepInv(c, past);
    RunKeepsFromCounter(c, Start<S>(), past);
    GeneratedToken(st.drawn, issue.env.script);
    forall e | e in st.handles
      ensures e.token != token
    {
      FirstByteDecides(e.token, token);
    }
    NotReissuedIff(c, Step(c, st, issue).st, evs, token);
    HandleLifetime(c, st, issue, k, token, evs, redeem);
  }

  /** An entry whose token begins with `first` and that the client may redeem. */
  ghost predicate OffersByte<S>(c: Config, e: Entry<S>, uuid: Uuid, first: byte) {
    |e.token| > 0 && e.token[0] == first && e.slot < |c.slots| && c.slots[e.slot].handler.KeyHandle?
    && uuid in c.slots[e.slot].handler.allowed
  }

  lemma OffersIsOffersByte<S>(c: Config, e: Entry<S>, uuid: Uuid, token: seq<byte>)
    requires FromCounter(e.token) && FromCounter(token)
    ensures Offers(c, e, uuid, token) <==> OffersByte(c, e, uuid, token[0])
  {
    FirstByteDecides(e.token, token);
  }

  /**
   With the counter generator, from start-up and with no premise on the tokens: a
   handle does what it promises, and nothing else, exactly when no entry beginning with
   its first byte is offered to the client unpromised or listed before it.
   */
  lemma HandleLifetimeWithCounterIff<S>(c: Config, past: seq<Event<S>>, issue: Event<S>, k: nat, token: seq<byte>,
                                        evs: seq<Event<S>>, uuid: Uuid)
    requires c.stream == CounterStream() && Runs(c, Start<S>(), past)
    requires Issues(c, Run(c, Start<S>(), past), issue, k, token)
    requires Runs(c, Step(c, Run(c, Start<S>(), past), issue).st, evs)
    ensures var st := Run(c, Start<S>(), past);
            var st' := Run(c, Step(c, st, issue).st, evs);
            var e, promised := Entry(k, issue.s, token),
                               !ClosedDuring(evs, issue.s) && uuid in c.slots[k].handler.allowed;
            AnsweredAsPromised(c, st', uuid, e, promised) <==>
            forall i :: 0 <= i < |st'.handles| && OffersByte(c, st'.handles[i], uuid, FirstNonZero(st.drawn)) ==>
              promised && e !in st'.handles[i + 1..]
  {
    var st := Run(c, Start<S>(), past);
    var st1 := Step(c, st, issue).st;
    var st' := Run(c, st1, evs);
    ReachableStatesKeepInv(c, past);
    RunKeepsFromCounter(c, Start<S>(), past);
    StepKeepsFromCounter(c, st, issue);
    RunKeepsFromCounter(c, st1, evs);
    GeneratedToken(st.drawn, issue.env.script);
    HandleLifetimeIff(c, st, issue, k, token, evs, uuid);
    forall i | 0 <= i < |st'.handles|
      ensures Offers(c, st'.handles[i], uuid, token) <==>
              OffersByte(c, st'.handles[i], uuid, FirstNonZero(st.drawn))
    {
      OffersIsOffersByte(c, st'.handles[i], uuid, token);
    }
  }
}
