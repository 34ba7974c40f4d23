/**
 The AES service as a client of the key service: an operation with an opaque handle
 opens a session of its own, redeems the handle and closes the session again.
 */
module HandleUse {
  import opened Bytes
  import opened Cbc
  import opened HwkeySpec
  import opened HwkeyRuns
  import Aes = HwaesSpec

  /** A reply as the client library passes it on; `room` is the size of the caller's key buffer. */
  function FetchedOf(reply: Reply, room: nat): Aes.Fetched {
    if reply.status == NoError && |reply.data| <= room then Aes.Key(reply.data) else Aes.Denied
  }

  /** One look-up that nothing gets in the way of, among whatever else happens at the key service meanwhile. */
  function LookUp<S>(s: S, uuid: Uuid, payload: seq<byte>, env: Env, evs1: seq<Event<S>>, evs2: seq<Event<S>>)
    : seq<Event<S>>
  {
    [Connect(s, uuid, true, true, true)] +
    (evs1 + ([Request(s, GetKeyslot(payload), env, true)] + (evs2 + [HangUp(s)])))
  }

  /**
   A look-up under a name that is no slot's draws no token, is answered by redeeming
   the name as things stand at the request, and leaves the key service as the other
   sessions' events alone would have left it.
   */
  lemma LookUpLeavesNoTrace<S>(c: Config, st: State<S>, s: S, uuid: Uuid, payload: seq<byte>, env: Env,
                               evs1: seq<Event<S>>, evs2: seq<Event<S>>)
    requires Inv(c, st) && s !in st.sessions && uuid in c.clients
    requires |payload| <= MAX_PAYLOAD_SIZE && NoSlotNamed(c.slots, CString(payload))
    requires Runs(c, st, evs1 + evs2) && NotOf(evs1, s) && NotOf(evs2, s)
    ensures var evs := LookUp(s, uuid, payload, env, evs1, evs2);
            Runs(c, st, evs) && Run(c, st, evs) == Run(c, st, evs1 + evs2)
    ensures var asked := Request(s, GetKeyslot(payload), env, true);
            && Runs(c, st, evs1) && Enabled(c, Connected(Run(c, st, evs1), s, uuid), asked)
            && Step(c, Connected(Run(c, st, evs1), s, uuid), asked).reply
               == Some(Redeem(c, Run(c, st, evs1), uuid, CString(payload), env.keys))
  {
    RunAppend(c, st, evs1, evs2);
    var mid := Run(c, st, evs1);
    var end := Run(c, mid, evs2);
    ExtraSessionRun(c, st, evs1, s, uuid);
    ExtraSessionRun(c, mid, evs2, s, uuid);
    RunKeepsInv(c, st, evs1);
    RunKeepsInv(c, mid, evs2);
    AskUnnamed(c, Connected(mid, s, uuid), s, payload, env);
    Leaving(c, end, s, uuid);
    var asked := Request(s, GetKeyslot(payload), env, true);
    var leave := evs2 + [HangUp(s)];
    RunAppend(c, Connected(mid, s, uuid), evs2, [HangUp(s)]);
    RunCons(c, Connected(mid, s, uuid), asked, leave);
    RunAppend(c, Connected(st, s, uuid), evs1, [asked] + leave);
    RunCons(c, st, Connect(s, uuid, true, true, true), evs1 + ([asked] + leave));
  }

  lemma Leaving<S>(c: Config, st: State<S>, s: S, uuid: Uuid)
    requires Inv(c, st) && s !in st.sessions
    ensures Runs(c, Connected(st, s, uuid), [HangUp(s)]) && Run(c, Connected(st, s, uuid), [HangUp(s)]) == st
  {
    AbandonedConnect(c, st, s, uuid);
    RunCons(c, Connected(st, s, uuid), HangUp(s), []);
    assert [HangUp(s)] + [] == [HangUp(s)];
  }

  /** What redeeming a token gives after any run since it was issued. */
  lemma RedeemAfterRun<S>(c: Config, st: State<S>, issue: Event<S>, k: nat, token: seq<byte>,
                          evs: seq<Event<S>>, uuid: Uuid, keys: nat -> Reply)
    requires Inv(c, st) && Issues(c, st, issue, k, token)
    requires forall e :: e in st.handles ==> e.token != token
    requires Runs(c, Step(c, st, issue).st, evs) && NotReissued(c, Step(c, st, issue).st, evs, token)
    ensures Inv(c, Run(c, Step(c, st, issue).st, evs))
    ensures Redeem(c, Run(c, Step(c, st, issue).st, evs), uuid, CString(token), keys) ==
            if !ClosedDuring(evs, issue.s) && uuid in c.slots[k].handler.allowed
            then keys(k) else Reply(NotFound, [])
  {
    var e := Entry(k, issue.s, token);
    var st1 := Step(c, st, issue).st;
    IssueAddsEntry(c, st, issue, k, token);
    StepKeepsInv(c, st, issue);
    RunKeepsInv(c, st1, evs);
    TokenNeverComesBack(c, st1, evs, e);
    if !ClosedDuring(evs, issue.s) {
      EntrySurvives(c, st1, evs, e);
    }
    RedeemSoleHolder(c, Run(c, st1, evs), uuid, e, keys);
  }

  /** An AES operation with a handle, by what the key service replied. */
  lemma AesWithReply(p: Prims, a: Aes.Args, text: seq<byte>, tag: seq<byte>, e: Aes.Env, reply: Reply, room: nat)
    requires Sized(p) && a.opaqueKey && Aes.CheckBuffers(a, |text|) == Aes.Success
    requires |a.key| <= e.maxHandle && a.key[|a.key| - 1] == 0
    requires e.fetched == FetchedOf(reply, room)
    ensures Aes.AesOp(p, a, text, tag, e) ==
            if reply.status == NoError && 0 < |reply.data| <= room then
              Aes.AesOp(p, a.(opaqueKey := false, key := reply.data), text, tag, e)
            else if reply.status == NoError && reply.data == [] then
              Aes.Answer(if a.mode.OtherMode? then Aes.NotImplemented else Aes.InvalidArgs, text, tag)
            else
              Aes.Answer(Aes.Io, text, tag)
  {
    if Aes.Resolve(a, e).Use? {
      Aes.HandleIsTransparent(p, a, text, tag, e);
    }
  }

  /**
   End to end: after any run of the key service since a handle was issued, an AES
   operation naming it answers exactly like one given the slot's key, provided the
   issuing session lasts until the request and the AES service may redeem; otherwise it
   is an I/O error and the outputs are left alone. Other sessions' events may fall
   between connecting, asking (`between`) and hanging up (`later`); the key service
   ends up as if only they had happened.
   */
  lemma AesWithHandle<S>(c: Config, st: State<S>, issue: Event<S>, k: nat, token: seq<byte>,
                         evs: seq<Event<S>>, between: seq<Event<S>>, later: seq<Event<S>>,
                         s: S, uuid: Uuid, payload: seq<byte>, env: Env,
                         p: Prims, a: Aes.Args, text: seq<byte>, tag: seq<byte>, e: Aes.Env, room: nat)
    requires Inv(c, st) && Issues(c, st, issue, k, token)
    requires forall entry :: entry in st.handles ==> entry.token != token
    requires Runs(c, Step(c, st, issue).st, evs)
    requires Runs(c, Run(c, Step(c, st, issue).st, evs), between + later) && NotOf(between, s) && NotOf(later, s)
    requires s !in Run(c, Step(c, st, issue).st, evs).sessions && uuid in c.clients
    requires |payload| <= MAX_PAYLOAD_SIZE && CString(payload) == CString(a.key) == CString(token)
    requires NoSlotNamed(c.slots, CString(token))
    requires Runs(c, Step(c, st, issue).st, evs + between)
             && NotReissued(c, Step(c, st, issue).st, evs + between, token)
    requires Sized(p) && a.opaqueKey && Aes.CheckBuffers(a, |text|) == Aes.Success
    requires |a.key| <= e.maxHandle && a.key[|a.key| - 1] == 0
    requires var asking := Connected(Run(c, Step(c, st, issue).st, evs + between), s, uuid);
             var asked := Request(s, GetKeyslot(payload), env, true);
             && Enabled(c, asking, asked) && Step(c, asking, asked).reply.Some?
             && e.fetched == FetchedOf(Step(c, asking, asked).reply.value, room)
    ensures var now := Run(c, Step(c, st, issue).st, evs);
            var lookUp := LookUp(s, uuid, payload, env, between, later);
            Runs(c, now, lookUp) && Run(c, now, lookUp) == Run(c, now, between + later)
    ensures var live := !ClosedDuring(evs + between, issue.s) && uuid in c.slots[k].handler.allowed;
            var key := env.keys(k);
            Aes.AesOp(p, a, text, tag, e) ==
            if live && key.status == NoError && 0 < |key.data| <= room then
              Aes.AesOp(p, a.(opaqueKey := false, key := key.data), text, tag, e)
            else if live && key.status == NoError && key.data == [] then
              Aes.Answer(if a.mode.OtherMode? then Aes.NotImplemented else Aes.InvalidArgs, text, tag)
            else
              Aes.Answer(Aes.Io, text, tag)
  {
    var st1 := Step(c, st, issue).st;
    var now := Run(c, st1, evs);
    StepKeepsInv(c, st, issue);
    RunKeepsInv(c, st1, evs);
    RunAppend(c, st1, evs, between);
    RedeemAfterRun(c, st, issue, k, token, evs + between, uuid, env.keys);
    LookUpLeavesNoTrace(c, now, s, uuid, payload, env, between, later);
    AesWithReply(p, a, text, tag, e, Redeem(c, Run(c, now, between), uuid, CString(token), env.keys), room);
  }
}
