/** What every run of the key service keeps, and how long a handle lives. */
module HwkeyRuns {
  import opened Bytes
  import opened CounterProvider
  import opened AccessToken
  import opened HwkeySpec

  // ----- the invariant holds in every reachable state

  lemma {:induction false} WithoutOwnerKeepsOnePerSlot<S>(handles: seq<Entry<S>>, s: S)
    requires OnePerSlot(handles)
    ensures OnePerSlot(WithoutOwner(handles, s))
  {
    if handles != [] {
      WithoutOwnerKeepsOnePerSlot(handles[1..], s);
      WithoutOwnerMembers(handles[1..], s);
      forall e | e in WithoutOwner(handles[1..], s)
        ensures e.slot != handles[0].slot
      {
        assert e in handles[1..];
      }
    }
  }

  lemma CloseKeepsInv<S>(c: Config, st: State<S>, s: S)
    requires Inv(c, st)
    ensures Inv(c, Close(st, s))
  {
    WithoutOwnerKeepsOnePerSlot(st.handles, s);
    WithoutOwnerMembers(st.handles, s);
  }

  lemma FetchKeepsInv<S>(c: Config, st: State<S>, s: S, uuid: Uuid, id: seq<byte>, env: Env)
    requires Inv(c, st) && s in st.sessions && st.sessions[s] == uuid
    requires FetchTerminates(c, st, uuid, id, env)
    ensures Inv(c, Fetch(c, st, s, uuid, id, env).st)
  {
  }

  lemma StepKeepsInv<S>(c: Config, st: State<S>, ev: Event<S>)
    requires Inv(c, st) && Enabled(c, st, ev)
    ensures Inv(c, Step(c, st, ev).st)
  {
    if ev.HangUp? || ev.RecvFailed? {
      CloseKeepsInv(c, st, ev.s);
    } else if ev.Request? {
      if ev.cmd.GetKeyslot? {
        FetchKeepsInv(c, st, ev.s, st.sessions[ev.s], CString(ev.cmd.payload), ev.env);
      }
      CloseKeepsInv(c, Respond(c, st, ev.s, ev.cmd, ev.env).st, ev.s);
    }
  }

  lemma {:induction false} RunKeepsInv<S>(c: Config, st: State<S>, evs: seq<Event<S>>)
    requires Inv(c, st) && Runs(c, st, evs)
    ensures Inv(c, Run(c, st, evs))
    decreases |evs|
  {
    if evs != [] {
      StepKeepsInv(c, st, evs[0]);
      RunKeepsInv(c, Step(c, st, evs[0]).st, evs[1..]);
    }
  }

  /** In particular in every state that the service reaches from start-up. */
  lemma ReachableStatesKeepInv<S>(c: Config, evs: seq<Event<S>>)
    requires Runs(c, Start<S>(), evs)
    ensures Inv(c, Run(c, Start<S>(), evs))
  {
    RunKeepsInv(c, Start<S>(), evs);
  }

  lemma RunCons<S>(c: Config, st: State<S>, ev: Event<S>, evs: seq<Event<S>>)
    requires Enabled(c, st, ev) && Runs(c, Step(c, st, ev).st, evs)
    ensures Runs(c, st, [ev] + evs) && Run(c, st, [ev] + evs) == Run(c, Step(c, st, ev).st, evs)
  {
    assert ([ev] + evs)[1..] == evs;
  }

  /** A run in two parts. */
  lemma {:induction false} RunAppend<S>(c: Config, st: State<S>, a: seq<Event<S>>, b: seq<Event<S>>)
    ensures Runs(c, st, a + b) <==> Runs(c, st, a) && Runs(c, Run(c, st, a), b)
    ensures Runs(c, st, a + b) ==> Run(c, st, a + b) == Run(c, Run(c, st, a), b)
    decreases |a|
  {
    if a == [] {
      assert a + b == b;
    } else {
      assert (a + b)[0] == a[0] && (a + b)[1..] == a[1..] + b;
      if Enabled(c, st, a[0]) {
        RunAppend(c, Step(c, st, a[0]).st, a[1..], b);
      }
    }
  }

  // ----- a session that owns nothing is invisible to the others

  /** None of the events is one of session `s`. */
  ghost predicate NotOf<S>(evs: seq<Event<S>>, s: S) {
    forall i :: 0 <= i < |evs| ==> evs[i].OthersDraw? || evs[i].s != s
  }

  ghost function Connected<S>(st: State<S>, s: S, uuid: Uuid): State<S> {
    st.(sessions := st.sessions[s := uuid])
  }

  lemma SessionsOfOthers<S>(c: Config, st: State<S>, ev: Event<S>, s: S)
    requires Enabled(c, st, ev) && (ev.OthersDraw? || ev.s != s)
    ensures s in Step(c, st, ev).st.sessions <==> s in st.sessions
  {
  }

  lemma ExtraSessionAnswer<S>(c: Config, st: State<S>, ev: Event<S>, s: S, uuid: Uuid)
    requires s !in st.sessions && Enabled(c, st, ev) && ev.Request? && ev.s != s
    ensures Enabled(c, Connected(st, s, uuid), ev)
    ensures var answered := Respond(c, st, ev.s, ev.cmd, ev.env);
            Respond(c, Connected(st, s, uuid), ev.s, ev.cmd, ev.env)
            == Outcome(Connected(answered.st, s, uuid), answered.reply)
  {
  }

  lemma ExtraSessionClose<S>(st: State<S>, other: S, s: S, uuid: Uuid)
    requires other != s
    ensures Close(Connected(st, s, uuid), other) == Connected(Close(st, other), s, uuid)
  {
    assert st.sessions[s := uuid] - {other} == (st.sessions - {other})[s := uuid];
  }

  lemma ExtraSession<S>(c: Config, st: State<S>, ev: Event<S>, s: S, uuid: Uuid)
    requires s !in st.sessions && Enabled(c, st, ev) && (ev.OthersDraw? || ev.s != s)
    ensures Enabled(c, Connected(st, s, uuid), ev)
    ensures Step(c, Connected(st, s, uuid), ev)
            == Outcome(Connected(Step(c, st, ev).st, s, uuid), Step(c, st, ev).reply)
  {
    match ev {
      case Connect(other, u, _, _, _) =>
        assert st.sessions[s := uuid][other := u] == st.sessions[other := u][s := uuid];
      case HangUp(other) => ExtraSessionClose(st, other, s, uuid);
      case RecvFailed(other) => ExtraSessionClose(st, other, s, uuid);
      case Request(other, cmd, env, _) =>
        ExtraSessionAnswer(c, st, ev, s, uuid);
        ExtraSessionClose(Respond(c, st, other, cmd, env).st, other, s, uuid);
      case OthersDraw(_) =>
    }
  }

  /** One more session makes no difference to a run of the others. */
  lemma {:induction false} ExtraSessionRun<S>(c: Config, st: State<S>, evs: seq<Event<S>>, s: S, uuid: Uuid)
    requires s !in st.sessions && Runs(c, st, evs) && NotOf(evs, s)
    ensures Runs(c, Connected(st, s, uuid), evs)
    ensures Run(c, Connected(st, s, uuid), evs) == Connected(Run(c, st, evs), s, uuid)
    ensures s !in Run(c, st, evs).sessions
    decreases |evs|
  {
    if evs != [] {
      ExtraSession(c, st, evs[0], s, uuid);
      SessionsOfOthers(c, st, evs[0], s);
      ExtraSessionRun(c, Step(c, st, evs[0]).st, evs[1..], s, uuid);
    }
  }

  /** Closing a session that was only just added leaves the state as it was. */
  lemma AbandonedConnect<S>(c: Config, st: State<S>, s: S, uuid: Uuid)
    requires Inv(c, st) && s !in st.sessions
    ensures Close(Connected(st, s, uuid), s) == st
  {
    NothingToDrop(st.handles, s);
  }

  lemma {:induction false} NothingToDrop<S>(handles: seq<Entry<S>>, s: S)
    requires forall e :: e in handles ==> e.owner != s
    ensures WithoutOwner(handles, s) == handles
  {
    if handles != [] {
      NothingToDrop(handles[1..], s);
    }
  }

  // ----- what a request for a key slot is answered, from the slot table

  /** The slot has this id, belongs to this client and has a handler. */
  ghost predicate Matches(slot: Slot, id: seq<byte>, uuid: Uuid) {
    slot.keyId == id && slot.uuid == uuid && slot.handler != NoHandler
  }

  /** Slot `i` is the first of the table that does. */
  ghost predicate FirstMatch(slots: seq<Slot>, id: seq<byte>, uuid: Uuid, i: nat) {
    i < |slots| && Matches(slots[i], id, uuid) && forall j :: 0 <= j < i ==> !Matches(slots[j], id, uuid)
  }

  lemma FindsFirstMatch(slots: seq<Slot>, id: seq<byte>, uuid: Uuid, i: nat)
    requires FirstMatch(slots, id, uuid, i)
    ensures FindSlot(slots, uuid, id) == Some(i)
  {
    var k := FindSlot(slots, uuid, id);
    assert Serves(slots[i], uuid, id);
    if k.Some? {
      assert Matches(slots[k.value], id, uuid);
    }
  }

  lemma FetchEnabled<S>(c: Config, st: State<S>, s: S, payload: seq<byte>, env: Env)
    requires s in st.sessions && |payload| <= 2048
    requires FetchTerminates(c, st, st.sessions[s], CString(payload), env)
    ensures Enabled(c, st, Request(s, GetKeyslot(payload), env, true))
  {
  }

  lemma FetchResponse<S>(c: Config, st: State<S>, s: S, payload: seq<byte>, env: Env)
    requires Enabled(c, st, Request(s, GetKeyslot(payload), env, true))
    ensures Respond(c, st, s, GetKeyslot(payload), env) == Fetch(c, st, s, st.sessions[s], CString(payload), env)
  {
  }

  lemma DeliveredResponse<S>(c: Config, st: State<S>, s: S, cmd: Command, env: Env)
    requires Enabled(c, st, Request(s, cmd, env, true))
    ensures Step(c, st, Request(s, cmd, env, true)) == Respond(c, st, s, cmd, env)
  {
  }

  /** A request whose reply is delivered comes to its fetch. */
  lemma DeliveredFetch<S>(c: Config, st: State<S>, s: S, payload: seq<byte>, env: Env, o: Outcome<S>)
    requires s in st.sessions && |payload| <= 2048
    requires FetchTerminates(c, st, st.sessions[s], CString(payload), env)
    requires o == Fetch(c, st, s, st.sessions[s], CString(payload), env)
    ensures Enabled(c, st, Request(s, GetKeyslot(payload), env, true))
    ensures Step(c, st, Request(s, GetKeyslot(payload), env, true)) == o
  {
    FetchEnabled(c, st, s, payload, env);
    FetchResponse(c, st, s, payload, env);
    DeliveredResponse(c, st, s, GetKeyslot(payload), env);
  }

  lemma FetchDirect<S>(c: Config, st: State<S>, s: S, uuid: Uuid, id: seq<byte>, env: Env, i: nat)
    requires FindSlot(c.slots, uuid, id) == Some(i) && c.slots[i].handler == Direct
    ensures FetchTerminates(c, st, uuid, id, env)
    ensures Fetch(c, st, s, uuid, id, env) == Outcome(st, Some(env.keys(i)))
  {
  }

  lemma FetchHeld<S>(c: Config, st: State<S>, s: S, uuid: Uuid, id: seq<byte>, env: Env, i: nat)
    requires FindSlot(c.slots, uuid, id) == Some(i) && c.slots[i].handler.KeyHandle? && HasHandle(st.handles, i)
    ensures FetchTerminates(c, st, uuid, id, env)
    ensures Fetch(c, st, s, uuid, id, env) == Outcome(st, Some(Reply(AlreadyExists, [])))
  {
  }

  lemma FetchWithoutMemory<S>(c: Config, st: State<S>, s: S, uuid: Uuid, id: seq<byte>, env: Env, i: nat)
    requires FindSlot(c.slots, uuid, id) == Some(i) && c.slots[i].handler.KeyHandle? && !HasHandle(st.handles, i)
    requires !env.allocOk
    ensures FetchTerminates(c, st, uuid, id, env)
    ensures Fetch(c, st, s, uuid, id, env) == Outcome(st, Some(Reply(Generic, [])))
  {
  }

  lemma FetchWithoutToken<S>(c: Config, st: State<S>, s: S, uuid: Uuid, id: seq<byte>, env: Env, i: nat)
    requires FindSlot(c.slots, uuid, id) == Some(i) && c.slots[i].handler.KeyHandle? && !HasHandle(st.handles, i)
    requires env.allocOk && !env.script.ok && Terminates(c.stream, st.drawn, env.script)
    ensures FetchTerminates(c, st, uuid, id, env)
    ensures Fetch(c, st, s, uuid, id, env)
            == Outcome(st.(drawn := st.drawn + 34 * env.script.rejected), Some(Reply(RngFailed, [])))
  {
    var reply := TokenReply(c.stream, st.drawn, env.script);
    assert reply == Reply(RngFailed, []) && NewEntries(i, s, reply) == [];
    assert st.handles + [] == st.handles;
    assert BytesUsed(env.script) == 34 * env.script.rejected;
  }

  /** A slot with a retriever of its own: its result, whatever that is, and nothing else happens. */
  lemma DirectSlotAnswers<S>(c: Config, st: State<S>, s: S, payload: seq<byte>, env: Env, i: nat)
    requires s in st.sessions && |payload| <= 2048
    requires FirstMatch(c.slots, CString(payload), st.sessions[s], i) && c.slots[i].handler == Direct
    ensures Enabled(c, st, Request(s, GetKeyslot(payload), env, true))
    ensures Step(c, st, Request(s, GetKeyslot(payload), env, true)) == Outcome(st, Some(env.keys(i)))
  {
    FindsFirstMatch(c.slots, CString(payload), st.sessions[s], i);
    FetchDirect(c, st, s, st.sessions[s], CString(payload), env, i);
    DeliveredFetch(c, st, s, payload, env, Outcome(st, Some(env.keys(i))));
  }

  /** A handle slot that has a handle, whoever asks and whoever holds it. */
  lemma HeldSlotAnswers<S>(c: Config, st: State<S>, s: S, payload: seq<byte>, env: Env, i: nat, j: nat)
    requires s in st.sessions && |payload| <= 2048
    requires FirstMatch(c.slots, CString(payload), st.sessions[s], i) && c.slots[i].handler.KeyHandle?
    requires j < |st.handles| && st.handles[j].slot == i
    ensures Enabled(c, st, Request(s, GetKeyslot(payload), env, true))
    ensures Step(c, st, Request(s, GetKeyslot(payload), env, true)) == Outcome(st, Some(Reply(AlreadyExists, [])))
  {
    FindsFirstMatch(c.slots, CString(payload), st.sessions[s], i);
    FetchHeld(c, st, s, st.sessions[s], CString(payload), env, i);
    DeliveredFetch(c, st, s, payload, env, Outcome(st, Some(Reply(AlreadyExists, []))));
  }

  /** A handle slot without one, when no new handle comes about: no memory, or the random device fails. */
  lemma FreeSlotFails<S>(c: Config, st: State<S>, s: S, payload: seq<byte>, env: Env, i: nat)
    requires s in st.sessions && |payload| <= 2048
    requires FirstMatch(c.slots, CString(payload), st.sessions[s], i) && c.slots[i].handler.KeyHandle?
    requires forall j :: 0 <= j < |st.handles| ==> st.handles[j].slot != i
    requires !env.allocOk || (!env.script.ok && Terminates(c.stream, st.drawn, env.script))
    ensures Enabled(c, st, Request(s, GetKeyslot(payload), env, true))
    ensures Step(c, st, Request(s, GetKeyslot(payload), env, true)) ==
            if !env.allocOk then Outcome(st, Some(Reply(Generic, [])))
            else Outcome(st.(drawn := st.drawn + 34 * env.script.rejected), Some(Reply(RngFailed, [])))
  {
    FindsFirstMatch(c.slots, CString(payload), st.sessions[s], i);
    if !env.allocOk {
      FetchWithoutMemory(c, st, s, st.sessions[s], CString(payload), env, i);
      DeliveredFetch(c, st, s, payload, env, Outcome(st, Some(Reply(Generic, []))));
    } else {
      var st' := st.(drawn := st.drawn + 34 * env.script.rejected);
      FetchWithoutToken(c, st, s, st.sessions[s], CString(payload), env, i);
      DeliveredFetch(c, st, s, payload, env, Outcome(st', Some(Reply(RngFailed, []))));
    }
  }

  /** The token of a draw that begins at offset `from`. */
  lemma TokenWrittenOut(stream: nat -> byte, drawn: nat, script: DrawScript, from: nat)
    requires script.ok && Terminates(stream, drawn, script) && from == drawn + 34 * script.rejected
    ensures var draw := Window(stream, from, 34);
            |NonZero(draw)| >= 31 && TokenReply(stream, drawn, script) == Reply(NoError, NonZero(draw)[..31] + [0])
    ensures drawn + BytesUsed(script) == from + 34
  {
    assert Draw(stream, drawn, script.rejected) == Window(stream, from, 34);
  }

  /** And when one does: the first 31 non-zero bytes of the first good draw, and an entry at the end of the list. */
  lemma FreeSlotAnswers<S>(c: Config, st: State<S>, s: S, payload: seq<byte>, env: Env, i: nat, from: nat)
    requires s in st.sessions && |payload| <= 2048
    requires FirstMatch(c.slots, CString(payload), st.sessions[s], i) && c.slots[i].handler.KeyHandle?
    requires forall j :: 0 <= j < |st.handles| ==> st.handles[j].slot != i
    requires env.allocOk && env.script.ok && Terminates(c.stream, st.drawn, env.script)
    requires from == st.drawn + 34 * env.script.rejected
    ensures Enabled(c, st, Request(s, GetKeyslot(payload), env, true))
    ensures |NonZero(Window(c.stream, from, 34))| >= 31
    ensures var token := NonZero(Window(c.stream, from, 34))[..31] + [0];
            Step(c, st, Request(s, GetKeyslot(payload), env, true)) ==
            Outcome(st.(handles := st.handles + [Entry(i, s, token)], drawn := from + 34), Some(Reply(NoError, token)))
  {
    FindsFirstMatch(c.slots, CString(payload), st.sessions[s], i);
    TokenWrittenOut(c.stream, st.drawn, env.script, from);
    FreshHandle(c, st, s, payload, env, i, TokenReply(c.stream, st.drawn, env.script), from + 34);
  }

  lemma FreshHandle<S>(c: Config, st: State<S>, s: S, payload: seq<byte>, env: Env, i: nat, reply: Reply, drawn: nat)
    requires s in st.sessions && |payload| <= 2048
    requires FindSlot(c.slots, st.sessions[s], CString(payload)) == Some(i)
    requires c.slots[i].handler.KeyHandle? && !HasHandle(st.handles, i)
    requires env.allocOk && env.script.ok && Terminates(c.stream, st.drawn, env.script)
    requires reply == TokenReply(c.stream, st.drawn, env.script) && drawn == st.drawn + BytesUsed(env.script)
    ensures Enabled(c, st, Request(s, GetKeyslot(payload), env, true))
    ensures Step(c, st, Request(s, GetKeyslot(payload), env, true)) ==
            Outcome(st.(handles := st.handles + [Entry(i, s, reply.data)], drawn := drawn), Some(reply))
  {
    var st' := st.(handles := st.handles + [Entry(i, s, reply.data)], drawn := drawn);
    FirstFetchAdds(c, st, s, st.sessions[s], CString(payload), i, env, reply);
    DeliveredFetch(c, st, s, payload, env, Outcome(st', Some(reply)));
  }

  /** An entry whose token spells the string and that the client may redeem. */
  ghost predicate Tells<S>(c: Config, e: Entry<S>, uuid: Uuid, id: seq<byte>) {
    && e.slot < |c.slots| && c.slots[e.slot].handler.KeyHandle? && uuid in c.slots[e.slot].handler.allowed
    && e.token == id + [0]
  }

  /** Entry `j` is the first that does, or `j` is past the end because none does. */
  ghost predicate FirstTells<S>(c: Config, handles: seq<Entry<S>>, uuid: Uuid, id: seq<byte>, j: nat) {
    && j <= |handles|
    && (j < |handles| ==> Tells(c, handles[j], uuid, id))
    && (forall i :: 0 <= i < j ==> !Tells(c, handles[i], uuid, id))
  }

  /**
   When no slot matches, the tokens in the table alone decide: the key behind the
   first one that spells the string for this client, and not found if there is none.
   */
  lemma UnmatchedAnswers<S>(c: Config, st: State<S>, s: S, payload: seq<byte>, env: Env) returns (j: nat)
    requires Inv(c, st) && s in st.sessions && |payload| <= 2048
    requires forall i :: 0 <= i < |c.slots| ==> !Matches(c.slots[i], CString(payload), st.sessions[s])
    ensures Enabled(c, st, Request(s, GetKeyslot(payload), env, true))
    ensures FirstTells(c, st.handles, st.sessions[s], CString(payload), j)
    ensures Step(c, st, Request(s, GetKeyslot(payload), env, true)) ==
            Outcome(st, Some(if j < |st.handles| then env.keys(st.handles[j].slot) else Reply(NotFound, [])))
  {
    var id, uuid := CString(payload), st.sessions[s];
    NoneServes(c.slots, id, uuid);
    var found := FindOpened(c.slots, st.handles, uuid, id);
    j := if found.Some? then found.value else |st.handles|;
    forall i | 0 <= i < |st.handles|
      ensures Tells(c, st.handles[i], uuid, id) <==> Opens(c.slots, st.handles[i], uuid, id)
    {
      TellsIsOpens(c, st, uuid, id, i);
    }
    DeliveredFetch(c, st, s, payload, env, Outcome(st, Some(Redeem(c, st, uuid, id, env.keys))));
  }

  lemma FoundMatches(slots: seq<Slot>, id: seq<byte>, uuid: Uuid)
    ensures FindSlot(slots, uuid, id).Some? ==> Matches(slots[FindSlot(slots, uuid, id).value], id, uuid)
  {
  }

  lemma NoneServes(slots: seq<Slot>, id: seq<byte>, uuid: Uuid)
    requires forall i :: 0 <= i < |slots| ==> !Matches(slots[i], id, uuid)
    ensures FindSlot(slots, uuid, id).None?
  {
    FoundMatches(slots, id, uuid);
  }

  lemma TellsIsOpens<S>(c: Config, st: State<S>, uuid: Uuid, id: seq<byte>, j: nat)
    requires Inv(c, st) && j < |st.handles|
    ensures Tells(c, st.handles[j], uuid, id) <==> Opens(c.slots, st.handles[j], uuid, id)
  {
    var token := st.handles[j].token;
    assert ValidEntry(c, st, st.handles[j]);
    TokenAsCString(token);
    assert token == token[..HANDLE_SIZE - 1] + [0];
    assert token == id + [0] ==> token[..HANDLE_SIZE - 1] == id;
  }

  /** The other commands: a derived key as the provider gives it, and a refusal. */
  lemma OtherCommandsAnswer<S>(c: Config, st: State<S>, s: S, payload: seq<byte>, result: Reply, env: Env)
    requires s in st.sessions && |payload| <= 2048
    ensures Step(c, st, Request(s, Derive(payload, result), env, true)) == Outcome(st, Some(result))
    ensures Step(c, st, Request(s, Unsupported(payload), env, true)) == Outcome(st, Some(Reply(NotImplemented, [])))
  {
  }

  /** A connection becomes a session of its uuid only if that may connect and nothing fails. */
  lemma ConnectionOpens<S>(c: Config, st: State<S>, s: S, uuid: Uuid, acceptOk: bool, allocOk: bool, cookieOk: bool)
    requires s !in st.sessions
    ensures Step(c, st, Connect(s, uuid, acceptOk, allocOk, cookieOk)) ==
            Outcome(if acceptOk && allocOk && cookieOk && uuid in c.clients
                    then State(st.sessions[s := uuid], st.handles, st.drawn) else st, None)
  {
  }

  /** A session that hangs up, cannot be read from or cannot be answered is gone, and everyone else's is not. */
  lemma SessionEnds<S>(c: Config, st: State<S>, ev: Event<S>, s: S, other: S)
    requires Enabled(c, st, ev) && Closes(ev, s)
    ensures Step(c, st, ev).reply == None && s !in Step(c, st, ev).st.sessions
    ensures other != s && other in st.sessions ==>
              other in Step(c, st, ev).st.sessions && Step(c, st, ev).st.sessions[other] == st.sessions[other]
  {
  }

  /** Those who stay keep their order: dropping a session's entries does so piece by piece. */
  lemma {:induction false} WithoutOwnerAppend<S>(a: seq<Entry<S>>, b: seq<Entry<S>>, s: S)
    ensures WithoutOwner(a + b, s) == WithoutOwner(a, s) + WithoutOwner(b, s)
  {
    if a == [] {
      assert a + b == b;
    } else {
      assert (a + b)[1..] == a[1..] + b;
      WithoutOwnerAppend(a[1..], b, s);
      var head := if a[0].owner == s then [] else [a[0]];
      assert WithoutOwner(a + b, s) == head + WithoutOwner((a + b)[1..], s);
    }
  }

  // ----- issuing a handle

  /** Does this event end the session `s`? */
  ghost predicate Closes<S>(ev: Event<S>, s: S) {
    || ev == HangUp(s)
    || ev == RecvFailed(s)
    || (ev.Request? && ev.s == s && !ev.sendOk)
  }

  ghost predicate ClosedDuring<S>(evs: seq<Event<S>>, s: S) {
    exists i :: 0 <= i < |evs| && Closes(evs[i], s)
  }

  /** The event is a delivered reply that hands a new token for slot `k` to its session. */
  ghost predicate Issues<S>(c: Config, st: State<S>, ev: Event<S>, k: nat, token: seq<byte>) {
    && Enabled(c, st, ev)
    && ev.Request? && ev.cmd.GetKeyslot? && ev.sendOk
    && FindSlot(c.slots, st.sessions[ev.s], CString(ev.cmd.payload)) == Some(k)
    && c.slots[k].handler.KeyHandle?
    && Step(c, st, ev).reply == Some(Reply(NoError, token))
  }

  lemma IssueAddsEntry<S>(c: Config, st: State<S>, ev: Event<S>, k: nat, token: seq<byte>)
    requires Issues(c, st, ev, k, token)
    ensures Step(c, st, ev).st.handles == st.handles + [Entry(k, ev.s, token)]
    ensures ValidToken(token) && !HasHandle(st.handles, k)
  {
  }

  /** The converse: a first fetch whose draws end in a token adds an entry with it. */
  lemma FirstFetchAdds<S>(c: Config, st: State<S>, s: S, uuid: Uuid, id: seq<byte>, k: nat, env: Env, reply: Reply)
    requires env.allocOk && env.script.ok && Terminates(c.stream, st.drawn, env.script)
    requires FindSlot(c.slots, uuid, id) == Some(k)
    requires c.slots[k].handler.KeyHandle? && !HasHandle(st.handles, k)
    requires reply == TokenReply(c.stream, st.drawn, env.script)
    ensures DrawsToken(c, st, uuid, id, env) && FetchTerminates(c, st, uuid, id, env)
    ensures reply.status == NoError
    ensures Fetch(c, st, s, uuid, id, env)
            == Outcome(st.(handles := st.handles + [Entry(k, s, reply.data)],
                           drawn := st.drawn + BytesUsed(env.script)), Some(reply))
  {
    assert reply.status == NoError;
    assert NewEntries(k, s, reply) == [Entry(k, s, reply.data)];
  }

  lemma FirstFetchIssues<S>(c: Config, st: State<S>, s: S, id: seq<byte>, k: nat, env: Env, reply: Reply)
    requires s in st.sessions && |id| <= MAX_PAYLOAD_SIZE
    requires env.allocOk && env.script.ok && Terminates(c.stream, st.drawn, env.script)
    requires FindSlot(c.slots, st.sessions[s], CString(id)) == Some(k)
    requires c.slots[k].handler.KeyHandle? && !HasHandle(st.handles, k)
    requires reply == TokenReply(c.stream, st.drawn, env.script)
    ensures var ev := Request(s, GetKeyslot(id), env, true);
            && Issues(c, st, ev, k, reply.data)
            && Step(c, st, ev).st == st.(handles := st.handles + [Entry(k, s, reply.data)],
                                         drawn := st.drawn + BytesUsed(env.script))
  {
    FirstFetchAdds(c, st, s, st.sessions[s], CString(id), k, env, reply);
    var ev := Request(s, GetKeyslot(id), env, true);
    assert Enabled(c, st, ev);
    assert Step(c, st, ev) == Fetch(c, st, s, st.sessions[s], CString(id), env);
    assert reply == Reply(NoError, reply.data);
  }

  // ----- a live entry stays until its owner's session ends

  /** An event either keeps the list, appends to it, or drops one session's entries from it. */
  lemma StepHandles<S>(c: Config, st: State<S>, ev: Event<S>)
    requires Enabled(c, st, ev)
    ensures ev.OthersDraw? ==> Step(c, st, ev).st.handles == st.handles
    ensures !ev.OthersDraw? ==>
              var handles := Step(c, st, ev).st.handles;
              var answered := if ev.Request? then Respond(c, st, ev.s, ev.cmd, ev.env).st.handles else st.handles;
              && st.handles <= answered
              && (if Closes(ev, ev.s)
                  then (forall e :: e in handles ==> e in answered && e.owner != ev.s)
                    && (forall e :: e in answered && e.owner != ev.s ==> e in handles)
                  else handles == answered)
  {
    if !ev.OthersDraw? {
      var answered := if ev.Request? then Respond(c, st, ev.s, ev.cmd, ev.env).st.handles else st.handles;
      WithoutOwnerMembers(answered, ev.s);
    }
  }

  lemma StepKeepsEntry<S>(c: Config, st: State<S>, ev: Event<S>, e: Entry<S>)
    requires Enabled(c, st, ev) && e in st.handles && !Closes(ev, e.owner)
    ensures e in Step(c, st, ev).st.handles
  {
    StepHandles(c, st, ev);
  }

  lemma {:induction false} EntrySurvives<S>(c: Config, st: State<S>, evs: seq<Event<S>>, e: Entry<S>)
    requires Runs(c, st, evs) && e in st.handles && !ClosedDuring(evs, e.owner)
    ensures e in Run(c, st, evs).handles
    decreases |evs|
  {
    if evs != [] {
      assert Closes(evs[0], e.owner) ==> ClosedDuring(evs, e.owner);
      StepKeepsEntry(c, st, evs[0], e);
      ClosedDuringTail(evs, e.owner);
      EntrySurvives(c, Step(c, st, evs[0]).st, evs[1..], e);
    }
  }

  lemma ClosedDuringTail<S>(evs: seq<Event<S>>, s: S)
    requires evs != []
    ensures ClosedDuring(evs, s) <==> Closes(evs[0], s) || ClosedDuring(evs[1..], s)
  {
    if i :| 0 < i < |evs| && Closes(evs[i], s) {
      assert Closes(evs[1..][i - 1], s);
    }
    if j :| 0 <= j < |evs| - 1 && Closes(evs[1..][j], s) {
      assert Closes(evs[j + 1], s);
    }
  }

  // ----- at most one live token per slot, in every run

  /**
   While the first issuer's session lasts, any client fetching the slot again is
   told that it exists, and the list of handles stays as it is.
   */
  lemma FetchWhileHeld<S>(c: Config, st: State<S>, issue: Event<S>, k: nat, token: seq<byte>,
                          evs: seq<Event<S>>, again: Event<S>)
    requires Inv(c, st) && Issues(c, st, issue, k, token)
    requires Runs(c, Step(c, st, issue).st, evs) && !ClosedDuring(evs, issue.s)
    requires var st' := Run(c, Step(c, st, issue).st, evs);
             && Enabled(c, st', again)
             && again.Request? && again.cmd.GetKeyslot? && again.sendOk
             && FindSlot(c.slots, st'.sessions[again.s], CString(again.cmd.payload)) == Some(k)
    ensures var st' := Run(c, Step(c, st, issue).st, evs);
            && Step(c, st', again) == Outcome(st', Some(Reply(AlreadyExists, [])))
            && Entry(k, issue.s, token) in st'.handles
  {
    IssueAddsEntry(c, st, issue, k, token);
    EntrySurvives(c, Step(c, st, issue).st, evs, Entry(k, issue.s, token));
  }

  /** Two issues for one slot: the first issuer's session ended in between. */
  lemma IssuedTwiceMeansClosedBetween<S>(c: Config, st: State<S>, issue: Event<S>, k: nat, token: seq<byte>,
                                         evs: seq<Event<S>>, again: Event<S>, token': seq<byte>)
    requires Inv(c, st) && Issues(c, st, issue, k, token)
    requires Runs(c, Step(c, st, issue).st, evs)
    requires Issues(c, Run(c, Step(c, st, issue).st, evs), again, k, token')
    ensures ClosedDuring(evs, issue.s)
  {
    if !ClosedDuring(evs, issue.s) {
      FetchWhileHeld(c, st, issue, k, token, evs, again);
    }
  }

  // ----- a token opens its slot's key for exactly as long as its session lasts

  /** No entry other than `e` holds `token`. */
  ghost predicate HeldOnlyBy<S>(st: State<S>, token: seq<byte>, e: Entry<S>) {
    forall e' :: e' in st.handles && e'.token == token ==> e' == e
  }

  /** No event of the run puts `token` into the list anew. */
  ghost predicate NotReissued<S>(c: Config, st: State<S>, evs: seq<Event<S>>, token: seq<byte>)
    requires Runs(c, st, evs)
    decreases |evs|
  {
    evs == [] ||
    var st' := Step(c, st, evs[0]).st;
    && (forall e :: e in st'.handles && e.token == token ==> e in st.handles)
    && NotReissued(c, st', evs[1..], token)
  }

  lemma StepClosesEntry<S>(c: Config, st: State<S>, ev: Event<S>, e: Entry<S>)
    requires Enabled(c, st, ev) && Closes(ev, e.owner)
    ensures e !in Step(c, st, ev).st.handles
  {
    StepHandles(c, st, ev);
  }

  lemma {:induction false} TokenNeverComesBack<S>(c: Config, st: State<S>, evs: seq<Event<S>>, e: Entry<S>)
    requires Runs(c, st, evs) && NotReissued(c, st, evs, e.token) && HeldOnlyBy(st, e.token, e)
    ensures HeldOnlyBy(Run(c, st, evs), e.token, e)
    ensures e !in st.handles || ClosedDuring(evs, e.owner) ==> e !in Run(c, st, evs).handles
    decreases |evs|
  {
    if evs != [] {
      var st' := Step(c, st, evs[0]).st;
      if Closes(evs[0], e.owner) {
        StepClosesEntry(c, st, evs[0], e);
      }
      ClosedDuringTail(evs, e.owner);
      TokenNeverComesBack(c, st', evs[1..], e);
    }
  }

  /** What redeeming the text of `e`'s token gives when no other entry holds that token. */
  lemma RedeemSoleHolder<S>(c: Config, st: State<S>, uuid: Uuid, e: Entry<S>, keys: nat -> Reply)
    requires Inv(c, st) && HeldOnlyBy(st, e.token, e) && ValidToken(e.token)
    ensures Redeem(c, st, uuid, CString(e.token), keys) ==
            if e in st.handles && uuid in c.slots[e.slot].handler.allowed
            then keys(e.slot) else Reply(NotFound, [])
  {
    forall e' | e' in st.handles && CString(e'.token) == CString(e.token)
      ensures e' == e
    {
      TokensWithSameText(e.token, e'.token);
    }
  }

  /** The entry holds `token` and lets `uuid` redeem it. */
  ghost predicate Offers<S>(c: Config, e: Entry<S>, uuid: Uuid, token: seq<byte>) {
    e.token == token && e.slot < |c.slots| && c.slots[e.slot].handler.KeyHandle?
    && uuid in c.slots[e.slot].handler.allowed
  }

  /**
   Without knowing that a token is held only once: its text leads to an entry's own
   key exactly when no earlier entry offers the same token to the same client.
   */
  lemma OpensOwnEntryIff<S>(c: Config, st: State<S>, uuid: Uuid, j: nat)
    requires Inv(c, st) && j < |st.handles| && Offers(c, st.handles[j], uuid, st.handles[j].token)
    ensures FindOpened(c.slots, st.handles, uuid, CString(st.handles[j].token)) == Some(j)
            <==> forall i :: 0 <= i < j ==> !Offers(c, st.handles[i], uuid, st.handles[j].token)
  {
    assert ValidEntry(c, st, st.handles[j]);
    FindsFirstOffer(c, st, uuid, st.handles[j].token);
  }

  /** The token is offered to the client only if that is promised, and not by an entry listed before `e`. */
  ghost predicate OnlyOfferedAsPromised<S>(c: Config, st: State<S>, uuid: Uuid, e: Entry<S>, promised: bool) {
    forall i :: 0 <= i < |st.handles| && Offers(c, st.handles[i], uuid, e.token) ==>
      promised && e !in st.handles[i + 1..]
  }

  /** Whatever the retrievers return: the entry's own key if that is promised, and not found if not. */
  ghost predicate AnsweredAsPromised<S>(c: Config, st: State<S>, uuid: Uuid, e: Entry<S>, promised: bool) {
    forall keys: nat -> Reply :: Redeem(c, st, uuid, CString(e.token), keys) ==
                                 if promised then keys(e.slot) else Reply(NotFound, [])
  }

  lemma OffersIsOpens<S>(c: Config, st: State<S>, uuid: Uuid, token: seq<byte>, i: nat)
    requires Inv(c, st) && ValidToken(token) && i < |st.handles|
    ensures Offers(c, st.handles[i], uuid, token) <==> Opens(c.slots, st.handles[i], uuid, CString(token))
  {
    assert ValidEntry(c, st, st.handles[i]);
    if CString(st.handles[i].token) == CString(token) {
      TokensWithSameText(st.handles[i].token, token);
    }
  }

  /** A retriever result that tells one slot from all others. */
  ghost function Telling(slot: nat): nat -> Reply {
    n => Reply(NoError, if n == slot then [0] else [1])
  }

  /** `found` is the first entry that offers the token, if there is one. */
  ghost predicate FirstOffer<S>(c: Config, st: State<S>, uuid: Uuid, token: seq<byte>, found: Option<nat>) {
    && (found.Some? ==> found.value < |st.handles| && Offers(c, st.handles[found.value], uuid, token))
    && (forall i :: 0 <= i < (if found.Some? then found.value else |st.handles|) ==>
          !(i < |st.handles| && Offers(c, st.handles[i], uuid, token)))
  }

  lemma FindsFirstOffer<S>(c: Config, st: State<S>, uuid: Uuid, token: seq<byte>)
    requires Inv(c, st) && ValidToken(token)
    ensures FirstOffer(c, st, uuid, token, FindOpened(c.slots, st.handles, uuid, CString(token)))
  {
    forall i | 0 <= i < |st.handles|
      ensures Offers(c, st.handles[i], uuid, token) <==> Opens(c.slots, st.handles[i], uuid, CString(token))
    {
      OffersIsOpens(c, st, uuid, token, i);
    }
  }

  lemma LaterIsBehind<T>(s: seq<T>, i: nat, j: nat)
    requires i < |s| && j < |s|
    ensures i < j ==> s[j] in s[i + 1..]
  {
    if i < j {
      var rest := s[i + 1..];
      assert rest[j - (i + 1)] == s[j];
    }
  }

  /** When nothing else is offered, the first offer is `e` if it is promised, and there is none if it is not. */
  lemma FirstOfferIsPromised<S>(c: Config, st: State<S>, uuid: Uuid, e: Entry<S>, promised: bool, found: Option<nat>)
    requires FirstOffer(c, st, uuid, e.token, found)
    requires promised ==> e in st.handles && Offers(c, e, uuid, e.token)
    requires OnlyOfferedAsPromised(c, st, uuid, e, promised)
    ensures found.Some? <==> promised
    ensures found.Some? ==> st.handles[found.value] == e
  {
    if promised {
      var j :| 0 <= j < |st.handles| && st.handles[j] == e;
      assert found.Some? && found.value <= j;
      LaterIsBehind(st.handles, found.value, j);
    }
  }

  /** When something else is offered, the first offer is of another slot, or there is one though none is promised. */
  lemma FirstOfferIsOther<S>(c: Config, st: State<S>, uuid: Uuid, e: Entry<S>, promised: bool, found: Option<nat>)
    requires OnePerSlot(st.handles) && FirstOffer(c, st, uuid, e.token, found)
    requires promised ==> e in st.handles
    requires !OnlyOfferedAsPromised(c, st, uuid, e, promised)
    ensures found.Some?
    ensures promised ==> st.handles[found.value].slot != e.slot
  {
    var k :| 0 <= k < |st.handles| && Offers(c, st.handles[k], uuid, e.token) &&
             !(promised && e !in st.handles[k + 1..]);
    if promised {
      var j :| 0 <= j < |st.handles[k + 1..]| && st.handles[k + 1..][j] == e;
      assert st.handles[k + 1 + j] == e;
    }
  }

  /**
   Exactly when a token does what its entry promises, in both halves: the key while it
   is promised, and not found otherwise. Only what the table offers to the client
   under that token decides it.
   */
  lemma AnsweredAsPromisedIff<S>(c: Config, st: State<S>, uuid: Uuid, e: Entry<S>, promised: bool)
    requires Inv(c, st) && ValidToken(e.token)
    requires promised ==> e in st.handles && Offers(c, e, uuid, e.token)
    ensures AnsweredAsPromised(c, st, uuid, e, promised) <==> OnlyOfferedAsPromised(c, st, uuid, e, promised)
  {
    var found := FindOpened(c.slots, st.handles, uuid, CString(e.token));
    FindsFirstOffer(c, st, uuid, e.token);
    if OnlyOfferedAsPromised(c, st, uuid, e, promised) {
      FirstOfferIsPromised(c, st, uuid, e, promised, found);
    } else {
      FirstOfferIsOther(c, st, uuid, e, promised, found);
      assert Redeem(c, st, uuid, CString(e.token), Telling(e.slot)) == Telling(e.slot)(st.handles[found.value].slot);
    }
  }

  /**
   The same for a handle that was issued, over any run and with no premise on the
   tokens: what is promised is the slot's key as long as the issuing session lasts.
   */
  lemma HandleLifetimeIff<S>(c: Config, st: State<S>, issue: Event<S>, k: nat, token: seq<byte>,
                             evs: seq<Event<S>>, uuid: Uuid)
    requires Inv(c, st) && Issues(c, st, issue, k, token) && Runs(c, Step(c, st, issue).st, evs)
    ensures var st' := Run(c, Step(c, st, issue).st, evs);
            var e, promised := Entry(k, issue.s, token),
                               !ClosedDuring(evs, issue.s) && uuid in c.slots[k].handler.allowed;
            AnsweredAsPromised(c, st', uuid, e, promised) <==> OnlyOfferedAsPromised(c, st', uuid, e, promised)
  {
    var e, st1 := Entry(k, issue.s, token), Step(c, st, issue).st;
    IssueAddsEntry(c, st, issue, k, token);
    StepKeepsInv(c, st, issue);
    RunKeepsInv(c, st1, evs);
    if !ClosedDuring(evs, issue.s) {
      EntrySurvives(c, st1, evs, e);
    }
    AnsweredAsPromisedIff(c, Run(c, st1, evs), uuid, e,
                          !ClosedDuring(evs, issue.s) && uuid in c.slots[k].handler.allowed);
  }

  lemma TokensWithSameText(token: seq<byte>, token': seq<byte>)
    requires ValidToken(token) && ValidToken(token') && CString(token) == CString(token')
    ensures token == token'
  {
    TokenAsCString(token);
    TokenAsCString(token');
    assert token == token[..HANDLE_SIZE - 1] + [0];
    assert token' == token'[..HANDLE_SIZE - 1] + [0];
  }

  ghost predicate NoSlotNamed(slots: seq<Slot>, id: seq<byte>) {
    forall slot :: slot in slots ==> slot.keyId != id
  }

  /**
   The life of a handle, over any run: until the session that was issued the token
   ends, whoever presents the token from an allowed uuid gets exactly what the
   slot's retriever returns; from then on, and for everyone else, it is not found.
   */
  lemma HandleLifetime<S>(c: Config, st: State<S>, issue: Event<S>, k: nat, token: seq<byte>,
                          evs: seq<Event<S>>, redeem: Event<S>)
    requires Inv(c, st) && Issues(c, st, issue, k, token)
    requires forall e :: e in st.handles ==> e.token != token
    requires Runs(c, Step(c, st, issue).st, evs) && NotReissued(c, Step(c, st, issue).st, evs, token)
    requires NoSlotNamed(c.slots, CString(token))
    requires Enabled(c, Run(c, Step(c, st, issue).st, evs), redeem)
    requires redeem.Request? && redeem.cmd.GetKeyslot? && redeem.sendOk
    requires CString(redeem.cmd.payload) == CString(token)
    ensures var st' := Run(c, Step(c, st, issue).st, evs);
            Step(c, st', redeem) ==
            Outcome(st', Some(
              if !ClosedDuring(evs, issue.s) && st'.sessions[redeem.s] in c.slots[k].handler.allowed
              then redeem.env.keys(k) else Reply(NotFound, [])))
  {
    var e := Entry(k, issue.s, token);
    var st1 := Step(c, st, issue).st;
    var st2 := Run(c, st1, evs);
    IssueAddsEntry(c, st, issue, k, token);
    StepKeepsInv(c, st, issue);
    RunKeepsInv(c, st1, evs);
    TokenNeverComesBack(c, st1, evs, e);
    if !ClosedDuring(evs, issue.s) {
      EntrySurvives(c, st1, evs, e);
    }
    assert FindSlot(c.slots, st2.sessions[redeem.s], CString(token)).None?;
    RedeemSoleHolder(c, st2, st2.sessions[redeem.s], e, redeem.env.keys);
  }

  /** Fetching a name that is no slot's comes to redeeming it. */
  lemma FetchUnnamed<S>(c: Config, st: State<S>, s: S, uuid: Uuid, id: seq<byte>, env: Env)
    requires NoSlotNamed(c.slots, id)
    ensures FetchTerminates(c, st, uuid, id, env)
    ensures Fetch(c, st, s, uuid, id, env) == Outcome(st, Some(Redeem(c, st, uuid, id, env.keys)))
  {
    assert FindSlot(c.slots, uuid, id).None?;
  }

  lemma AskUnnamed<S>(c: Config, st: State<S>, s: S, payload: seq<byte>, env: Env)
    requires s in st.sessions && |payload| <= MAX_PAYLOAD_SIZE && NoSlotNamed(c.slots, CString(payload))
    ensures var asked := Request(s, GetKeyslot(payload), env, true);
            && Enabled(c, st, asked)
            && Step(c, st, asked) == Outcome(st, Some(Redeem(c, st, st.sessions[s], CString(payload), env.keys)))
  {
    FetchUnnamed(c, st, s, st.sessions[s], CString(payload), env);
  }

  /** The empty string opens nothing, in any reachable state. */
  lemma EmptyIdOpensNothing<S>(c: Config, st: State<S>, uuid: Uuid, keys: nat -> Reply)
    requires Inv(c, st)
    ensures Redeem(c, st, uuid, [], keys) == Reply(NotFound, [])
  {
    forall e | e in st.handles
      ensures CString(e.token) != []
    {
      TokenAsCString(e.token);
    }
  }
}
