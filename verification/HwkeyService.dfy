/**
 The key service itself: one list of handle nodes, changed in place, and a request
 buffer that keeps bytes of earlier messages. Every event handler is proved to
 take the step of `HwkeySpec`.
 */
module HwkeyService {
  import opened Bytes
  import opened CounterProvider
  import opened AccessToken
  import opened HwkeySpec
  import opened HwkeyRuns
  import Lists

  /** `struct hwkey_chan_ctx` */
  class Session {
    const uuid: Uuid

    constructor (uuid: Uuid)
      ensures this.uuid == uuid
    {
      this.uuid := uuid;
    }
  }

  /** `struct opaque_handle_node`; a node is allocated with a zeroed token. */
  class HandleNode {
    const slot: nat
    const owner: Session
    const token: array<byte>

    constructor (slot: nat, owner: Session)
      ensures this.slot == slot && this.owner == owner && fresh(token)
      ensures token.Length == HANDLE_SIZE && token[..] == Zeros(HANDLE_SIZE)
    {
      this.slot, this.owner := slot, owner;
      token := new byte[HANDLE_SIZE](_ => 0);
    }
  }

  ghost function EntryOf(n: HandleNode): Entry<Session>
    reads n.token
  {
    Entry(n.slot, n.owner, n.token[..])
  }

  ghost function EntriesOf(nodes: seq<HandleNode>): (es: seq<Entry<Session>>)
    reads set n | n in nodes :: n.token
    ensures |es| == |nodes|
    ensures forall i :: 0 <= i < |es| ==> es[i] == EntryOf(nodes[i])
  {
    seq(|nodes|, i requires 0 <= i < |nodes| reads set n | n in nodes :: n.token => EntryOf(nodes[i]))
  }

  /** The list has a finished token for the slot. */
  ghost predicate Holds(es: seq<Entry<Session>>, slot: nat) {
    exists i :: 0 <= i < |es| && es[i].slot == slot && ValidToken(es[i].token)
  }

  /** The slot's entry has just been inserted, with nothing in its token yet. */
  ghost predicate JustInserted(es: seq<Entry<Session>>, slot: nat) {
    && es != [] && es[|es| - 1].slot == slot && es[|es| - 1].token == Zeros(HANDLE_SIZE)
    && Finished(es[..|es| - 1]) && !Holds(es[..|es| - 1], slot)
  }

  /** The list once the token of its last entry has been filled in, or has failed to be. */
  ghost function Filled(es: seq<Entry<Session>>, reply: Reply): seq<Entry<Session>>
    requires es != []
  {
    es[..|es| - 1] + NewEntries(es[|es| - 1].slot, es[|es| - 1].owner, reply)
  }

  /** Every token is finished, as it is between requests. */
  ghost predicate Finished(es: seq<Entry<Session>>) {
    && OnePerSlot(es)
    && forall i :: 0 <= i < |es| ==> ValidToken(es[i].token)
  }

  lemma FinishedHolds(es: seq<Entry<Session>>, slot: nat)
    requires Finished(es)
    ensures Holds(es, slot) <==> HasHandle(es, slot)
  {
  }

  class Service {
    const slots: seq<Slot>
    const clients: seq<Uuid>
    const rng: Device
    const reqData: array<byte>

    var opaqueHandles: seq<HandleNode>

    /** The live session contexts; the service reaches each one through its channel's cookie. */
    ghost var sessions: set<Session>

    /** The token memory of every node allocated so far. */
    ghost var tokens: set<array<byte>>

    ghost function Cfg(): Config {
      Config(slots, clients, rng.stream)
    }

    ghost function Entries(): (es: seq<Entry<Session>>)
      requires Separated()
      reads `opaqueHandles, `tokens, tokens
      ensures |es| == |opaqueHandles|
      ensures forall i :: 0 <= i < |es| ==> es[i] == EntryOf(opaqueHandles[i])
    {
      EntriesOf(opaqueHandles)
    }

    ghost function Uuids(): map<Session, Uuid>
      reads `sessions
    {
      map s | s in sessions :: s.uuid
    }

    ghost function Abs(): State<Session>
      requires Separated()
      reads this, rng, tokens
    {
      State(Uuids(), Entries(), rng.drawn)
    }

    /** No two nodes share memory, with each other or with the request buffer. */
    ghost predicate Separated()
      reads `opaqueHandles, `tokens
    {
      && reqData.Length == MAX_PAYLOAD_SIZE + 1 && reqData !in tokens
      && (forall i :: 0 <= i < |opaqueHandles| ==>
            && opaqueHandles[i].token in tokens
            && opaqueHandles[i].token.Length == HANDLE_SIZE)
      && (forall i, j :: 0 <= i < j < |opaqueHandles| ==> opaqueHandles[i].token != opaqueHandles[j].token)
    }

    ghost predicate Valid()
      reads this, rng, tokens
    {
      Separated() && Inv(Cfg(), Abs())
    }

    constructor (slots: seq<Slot>, clients: seq<Uuid>, rng: Device)
      ensures Valid() && fresh(reqData)
      ensures this.slots == slots && this.clients == clients && this.rng == rng
      ensures opaqueHandles == [] && sessions == {}
    {
      this.slots, this.clients, this.rng := slots, clients, rng;
      reqData := new byte[MAX_PAYLOAD_SIZE + 1](_ => 0);
      opaqueHandles, sessions, tokens := [], {}, {};
    }

    /** Index of the node for a slot, or the length of the list when there is none. */
    method FindOpaqueHandleForSlot(slot: nat) returns (i: nat)
      requires Separated()
      ensures i <= |opaqueHandles|
      ensures i < |opaqueHandles| <==> HasHandle(Entries(), slot)
      ensures i < |opaqueHandles| ==> opaqueHandles[i].slot == slot
    {
      i := 0;
      while i < |opaqueHandles| && opaqueHandles[i].slot != slot
        invariant 0 <= i <= |opaqueHandles|
        invariant forall j :: 0 <= j < i ==> opaqueHandles[j].slot != slot
      {
        i := i + 1;
      }
      assert i < |opaqueHandles| ==> Entries()[i].slot == slot;
    }

    method DeleteOpaqueHandle(i: nat)
      requires Separated() && i < |opaqueHandles|
      modifies this`opaqueHandles, opaqueHandles[i].token
      ensures Separated() && opaqueHandles == old(opaqueHandles[..i] + opaqueHandles[i + 1..])
      ensures Entries() == old(Entries()[..i] + Entries()[i + 1..])
      ensures old(opaqueHandles[i].token)[..] == Zeros(HANDLE_SIZE)
    {
      var token := opaqueHandles[i].token;
      forall k | 0 <= k < HANDLE_SIZE {
        token[k] := 0;
      }
      opaqueHandles := opaqueHandles[..i] + opaqueHandles[i + 1..];
      forall j | 0 <= j < |opaqueHandles|
        ensures Entries()[j] == old(Entries()[..i] + Entries()[i + 1..])[j]
      {
        assert opaqueHandles[j] == old(opaqueHandles)[if j < i then j else j + 1];
        assert opaqueHandles[j].token != token;
        assert EntryOf(opaqueHandles[j]) == old(EntryOf(opaqueHandles[if j < i then j else j + 1]));
      }
    }

    /** Deletes every node the session owns while walking the list. */
    method DeleteHandlesOf(ctx: Session)
      requires Separated()
      modifies `opaqueHandles, tokens
      ensures Separated() && Entries() == WithoutOwner(old(Entries()), ctx)
    {
      var i := 0;
      ghost var kept, rest := [], Entries();
      while i < |opaqueHandles|
        invariant Separated()
        invariant i == |kept| && Entries() == kept + rest
        invariant WithoutOwner(old(Entries()), ctx) == kept + WithoutOwner(rest, ctx)
        decreases |rest|
      {
        WalkStep(kept, rest, ctx);
        Lists.CutAt(kept, rest);
        if opaqueHandles[i].owner == ctx {
          DeleteOpaqueHandle(i);
        } else {
          kept := kept + [rest[0]];
          i := i + 1;
        }
        rest := rest[1..];
      }
    }

    method CtxClose(ctx: Session)
      requires Separated() && ctx in sessions
      modifies `opaqueHandles, `sessions, tokens
      ensures Separated() && Abs() == Close(old(Abs()), ctx)
    {
      DeleteHandlesOf(ctx);
      sessions := sessions - {ctx};
      assert Uuids() == old(Uuids()) - {ctx};
    }

    method AppendNode(ctx: Session, slot: nat)
      requires Separated()
      modifies `opaqueHandles, `tokens
      ensures Separated() && fresh(tokens - old(tokens)) && tokens >= old(tokens)
      ensures Entries() == old(Entries()) + [Entry(slot, ctx, Zeros(HANDLE_SIZE))]
    {
      var entry := new HandleNode(slot, ctx);
      tokens := tokens + {entry.token};
      opaqueHandles := opaqueHandles + [entry];
    }

    /** Makes sure a node exists for the slot; a new one goes to the end of the list. */
    method InsertHandleNode(ctx: Session, slot: nat, allocOk: bool) returns (ok: bool)
      requires Separated() && Finished(Entries())
      modifies `opaqueHandles, `tokens
      ensures Separated() && fresh(tokens - old(tokens)) && tokens >= old(tokens)
      ensures ok == (Holds(old(Entries()), slot) || allocOk)
      ensures Entries() == old(Entries()) +
              if Holds(old(Entries()), slot) || !allocOk then [] else [Entry(slot, ctx, Zeros(HANDLE_SIZE))]
    {
      FinishedHolds(Entries(), slot);
      var i := FindOpaqueHandleForSlot(slot);
      if i == |opaqueHandles| {
        if !allocOk {
          return false;
        }
        AppendNode(ctx, slot);
      }
      return true;
    }

    /** Tells a token apart from the zeros a node starts with. */
    method IsEmptyToken(token: array<byte>) returns (empty: bool)
      requires token.Length == HANDLE_SIZE
      requires ValidToken(token[..]) || token[..] == Zeros(HANDLE_SIZE)
      ensures empty <==> token[..] == Zeros(HANDLE_SIZE)
    {
      var i := 0;
      while i < HANDLE_SIZE
        invariant 0 <= i <= HANDLE_SIZE
        invariant forall j :: 0 <= j < i ==> token[j] == 0
      {
        if token[i] != 0 {
          TokenAsCString(token[..]);
          assert |CString(token[..])| == HANDLE_SIZE - 1;
          return false;
        }
        i := i + 1;
      }
      return true;
    }

    /** Runs the generator on the newest node's token; no other node's token is touched. */
    method FillLastToken(script: DrawScript) returns (ok: bool)
      requires Separated() && opaqueHandles != []
      requires Entries()[|opaqueHandles| - 1].token == Zeros(HANDLE_SIZE)
      requires Terminates(rng.stream, rng.drawn, script)
      modifies rng, tokens
      ensures ok == script.ok && rng.drawn == old(rng.drawn) + BytesUsed(script)
      ensures Entries()[..|opaqueHandles| - 1] == old(Entries()[..|opaqueHandles| - 1])
      ensures ok ==> opaqueHandles[|opaqueHandles| - 1].token[..] == TokenReply(rng.stream, old(rng.drawn), script).data
    {
      var last := |opaqueHandles| - 1;
      var token := opaqueHandles[last].token;
      assert EntryOf(opaqueHandles[last]).token[HANDLE_SIZE - 1] == 0;
      ok := GenerateToken(rng, token, script);
      forall j | 0 <= j < last
        ensures EntryOf(opaqueHandles[j]) == old(EntryOf(opaqueHandles[j]))
      {
        assert opaqueHandles[j].token != token;
      }
    }

    /** Fills the token of the newest node, or takes the node away again when the random device fails. */
    method IssueToken(script: DrawScript) returns (reply: Reply)
      requires Separated() && opaqueHandles != []
      requires Entries()[|opaqueHandles| - 1].token == Zeros(HANDLE_SIZE)
      requires Terminates(rng.stream, rng.drawn, script)
      modifies `opaqueHandles, rng, tokens
      ensures Separated() && rng.drawn == old(rng.drawn) + BytesUsed(script)
      ensures reply == TokenReply(rng.stream, old(rng.drawn), script)
      ensures Entries() == Filled(old(Entries()), reply)
    {
      var last := |opaqueHandles| - 1;
      var ok := FillLastToken(script);
      if ok {
        reply := Reply(NoError, opaqueHandles[last].token[..]);
        assert Entries() == Entries()[..last] + [Entries()[last]];
      } else {
        DeleteOpaqueHandle(last);
        reply := Reply(RngFailed, []);
      }
    }

    method GetKeyHandle(slot: nat, script: DrawScript) returns (reply: Reply)
      requires Separated()
      requires if Finished(Entries()) then Holds(Entries(), slot)
               else JustInserted(Entries(), slot) && Terminates(rng.stream, rng.drawn, script)
      modifies `opaqueHandles, rng, tokens
      ensures Separated()
      ensures Finished(old(Entries())) ==>
                reply == Reply(AlreadyExists, []) && Entries() == old(Entries()) && rng.drawn == old(rng.drawn)
      ensures !Finished(old(Entries())) ==>
                && rng.drawn == old(rng.drawn) + BytesUsed(script)
                && reply == TokenReply(rng.stream, old(rng.drawn), script)
                && Entries() == Filled(old(Entries()), reply)
    {
      var i := FindOpaqueHandleForSlot(slot);
      ghost var es := Entries();
      WhereItIs(es, slot, i);
      assert es[i].token == opaqueHandles[i].token[..];
      var empty := IsEmptyToken(opaqueHandles[i].token);
      if !empty {
        reply := Reply(AlreadyExists, []);
      } else {
        reply := IssueToken(script);
      }
    }

    /** Compares 32 raw bytes of the request buffer with a token, which comes to comparing strings. */
    method TokenMatches(token: array<byte>) returns (same: bool)
      requires Separated() && token.Length == HANDLE_SIZE && ValidToken(token[..])
      ensures same <==> CString(token[..]) == CString(reqData[..])
    {
      RawComparisonIsStringComparison(token[..], reqData[..]);
      TokenAsCString(token[..]);
      same := token[..] == reqData[..HANDLE_SIZE];
    }

    /** What the invariant says of one node. */
    lemma NodeIsFinished(i: nat)
      requires Valid() && i < |opaqueHandles|
      ensures opaqueHandles[i].slot < |slots| && slots[opaqueHandles[i].slot].handler.KeyHandle?
      ensures Entries()[i] == EntryOf(opaqueHandles[i])
      ensures ValidToken(opaqueHandles[i].token[..]) && opaqueHandles[i].token[..] != Zeros(HANDLE_SIZE)
    {
      assert ValidEntry(Cfg(), Abs(), Abs().handles[i]);
      assert opaqueHandles[i].token[..][0] != 0;
    }

    /** Looks for a token the client may redeem. No node in the list can have an empty one here. */
    method GetOpaqueKey(uuid: Uuid, keys: nat -> Reply) returns (reply: Reply)
      requires Valid()
      ensures reply == Redeem(Cfg(), Abs(), uuid, CString(reqData[..]), keys)
    {
      ghost var es, id := Entries(), CString(reqData[..]);
      var i := 0;
      while i < |opaqueHandles|
        invariant 0 <= i <= |opaqueHandles|
        invariant FindOpened(slots, es, uuid, id, i) == FindOpened(slots, es, uuid, id)
      {
        var entry := opaqueHandles[i];
        NodeIsFinished(i);
        var empty := IsEmptyToken(entry.token);
        assert !empty && es[i] == EntryOf(entry);
        OpenedAt(slots, es, uuid, id, i);
        if uuid in slots[entry.slot].handler.allowed {
          var same := TokenMatches(entry.token);
          if same {
            return keys(entry.slot);
          }
        }
        i := i + 1;
      }
      return Reply(NotFound, []);
    }

    /** Serves a matched slot whose handler is `get_key_handle`. */
    method FetchHandle(ctx: Session, k: nat, env: Env) returns (reply: Reply)
      requires Separated() && Finished(Entries())
      requires !Holds(Entries(), k) && env.allocOk ==> Terminates(rng.stream, rng.drawn, env.script)
      modifies `opaqueHandles, `tokens, rng, tokens
      ensures Separated() && fresh(tokens - old(tokens))
      ensures Holds(old(Entries()), k) || !env.allocOk ==>
                && Entries() == old(Entries()) && rng.drawn == old(rng.drawn)
                && reply == Reply(if Holds(old(Entries()), k) then AlreadyExists else Generic, [])
      ensures !Holds(old(Entries()), k) && env.allocOk ==>
                && rng.drawn == old(rng.drawn) + BytesUsed(env.script)
                && reply == TokenReply(rng.stream, old(rng.drawn), env.script)
                && Entries() == old(Entries()) + NewEntries(k, ctx, reply)
    {
      ghost var before := Entries();
      var ok := InsertHandleNode(ctx, k, env.allocOk);
      if ok {
        if !Holds(before, k) {
          Appended(before, Entry(k, ctx, Zeros(HANDLE_SIZE)));
        } else {
          assert Entries() == before;
        }
        reply := GetKeyHandle(k, env.script);
      } else {
        reply := Reply(Generic, []);
      }
    }

    lemma AllFinished()
      requires Valid()
      ensures Finished(Entries())
    {
      forall i | 0 <= i < |opaqueHandles|
        ensures ValidToken(Entries()[i].token)
      {
        assert ValidEntry(Cfg(), Abs(), Abs().handles[i]);
      }
    }

    method ServeSlot(ctx: Session, k: nat, id: seq<byte>, env: Env) returns (reply: Reply)
      requires Valid() && ctx in sessions
      requires FindSlot(slots, ctx.uuid, id) == Some(k)
      requires FetchTerminates(Cfg(), Abs(), ctx.uuid, id, env)
      modifies `opaqueHandles, `tokens, rng, tokens
      ensures Separated() && fresh(tokens - old(tokens))
      ensures Outcome(Abs(), Some(reply)) == Fetch(Cfg(), old(Abs()), ctx, ctx.uuid, id, env)
      ensures slots[k].handler.Direct? ==> reply == env.keys(k) && Abs() == old(Abs())
    {
      if slots[k].handler.KeyHandle? {
        AllFinished();
        FinishedHolds(Entries(), k);
        reply := FetchHandle(ctx, k, env);
      } else {
        reply := env.keys(k);
      }
    }

    method HandleSlots(ctx: Session, env: Env) returns (reply: Reply)
      requires Valid() && ctx in sessions
      requires FetchTerminates(Cfg(), Abs(), ctx.uuid, CString(reqData[..]), env)
      modifies `opaqueHandles, `tokens, rng, tokens
      ensures Separated() && fresh(tokens - old(tokens))
      ensures Outcome(Abs(), Some(reply)) == Fetch(Cfg(), old(Abs()), ctx, ctx.uuid, CString(old(reqData[..])), env)
    {
      if |slots| == 0 {
        assert forall e :: e in Abs().handles ==> !ValidEntry(Cfg(), Abs(), e);
        return Reply(NotFound, []);
      }
      var id := CString(reqData[..]);
      var i := 0;
      while i < |slots|
        invariant 0 <= i <= |slots|
        invariant forall j :: 0 <= j < i ==> !Serves(slots[j], ctx.uuid, id)
      {
        if slots[i].keyId == id && ctx.uuid == slots[i].uuid && slots[i].handler != NoHandler {
          reply := ServeSlot(ctx, i, id, env);
          return;
        }
        i := i + 1;
      }
      reply := GetOpaqueKey(ctx.uuid, env.keys);
    }

    /** Copies a message into the request buffer, over whatever earlier messages left there. */
    method ReceivePayload(payload: seq<byte>)
      requires Separated() && |payload| <= MAX_PAYLOAD_SIZE
      modifies reqData
      ensures reqData[..|payload|] == payload
    {
      forall i | 0 <= i < |payload| {
        reqData[i] := payload[i];
      }
    }

    /** Terminates the slot id just received; what lies beyond it in the buffer does not change the id. */
    method TerminateId(payload: seq<byte>)
      requires Separated() && |payload| <= MAX_PAYLOAD_SIZE && reqData[..|payload|] == payload
      modifies reqData
      ensures CString(reqData[..]) == CString(payload)
      ensures reqData[..|payload|] == payload
    {
      reqData[|payload|] := 0;
      CStringOfTerminated(payload, reqData[|payload| + 1..]);
      assert reqData[..] == payload + [0] + reqData[|payload| + 1..];
    }

    method HandleGetKeyslot(ctx: Session, payload: seq<byte>, env: Env) returns (reply: Reply)
      requires Valid() && ctx in sessions
      requires |payload| <= MAX_PAYLOAD_SIZE && reqData[..|payload|] == payload
      requires FetchTerminates(Cfg(), Abs(), ctx.uuid, CString(payload), env)
      modifies `opaqueHandles, `tokens, rng, reqData, tokens
      ensures Separated() && fresh(tokens - old(tokens))
      ensures Outcome(Abs(), Some(reply)) == Fetch(Cfg(), old(Abs()), ctx, ctx.uuid, CString(payload), env)
      ensures reqData[..|payload|] == payload
    {
      TerminateId(payload);
      reply := HandleSlots(ctx, env);
    }

    /** Every message goes through the request buffer; only a derive request is wiped from it. */
    method ChanHandleMsg(ctx: Session, cmd: Command, env: Env) returns (reply: Reply)
      requires Valid() && ctx in sessions
      requires Enabled(Cfg(), Abs(), Request(ctx, cmd, env, true))
      modifies `opaqueHandles, `tokens, rng, reqData, tokens
      ensures Separated() && fresh(tokens - old(tokens))
      ensures Outcome(Abs(), Some(reply)) == Respond(Cfg(), old(Abs()), ctx, cmd, env)
      ensures reqData[..|cmd.payload|] == if cmd.Derive? then Zeros(|cmd.payload|) else cmd.payload
    {
      ReceivePayload(cmd.payload);
      match cmd {
        case GetKeyslot(payload) =>
          reply := HandleGetKeyslot(ctx, payload, env);
        case Derive(payload, result) =>
          reply := result;
          forall i | 0 <= i < |payload| {
            reqData[i] := 0;
          }
        case Unsupported(_) =>
          reply := Reply(NotImplemented, []);
      }
    }

    /** One event on a session's channel. A reply that cannot be sent ends the session. */
    method ChanHandler(ev: Event<Session>) returns (reply: Option<Reply>)
      requires Valid() && !ev.Connect? && !ev.OthersDraw? && Enabled(Cfg(), Abs(), ev)
      modifies this, rng, reqData, tokens
      ensures Valid() && fresh(tokens - old(tokens))
      ensures Outcome(Abs(), reply) == Step(Cfg(), old(Abs()), ev)
    {
      StepKeepsInv(Cfg(), Abs(), ev);
      reply := None;
      if ev.Request? {
        var answer := ChanHandleMsg(ev.s, ev.cmd, ev.env);
        if ev.sendOk {
          reply := Some(answer);
        } else {
          CtxClose(ev.s);
        }
      } else {
        CtxClose(ev.s);
      }
    }

    /** A connection attempt. The new session is the one returned, if any. */
    method PortHandler(uuid: Uuid, acceptOk: bool, allocOk: bool, cookieOk: bool) returns (ctx: Session?)
      requires Valid()
      modifies this, tokens
      ensures Valid() && tokens == old(tokens)
      ensures (ctx != null) == (acceptOk && uuid in clients && allocOk && cookieOk)
      ensures ctx == null ==> Abs() == old(Abs())
      ensures ctx != null ==> fresh(ctx) && ctx !in old(sessions) &&
                              Abs() == Step(Cfg(), old(Abs()), Connect(ctx, uuid, true, true, true)).st
    {
      ctx := null;
      if acceptOk && uuid in clients && allocOk {
        ghost var before := Abs();
        var session := AddSession(uuid);
        StepKeepsInv(Cfg(), before, Connect(session, uuid, true, true, true));
        if cookieOk {
          ctx := session;
        } else {
          CtxClose(session);
          AbandonedConnect(Cfg(), before, session, uuid);
        }
      }
    }

    method AddSession(uuid: Uuid) returns (session: Session)
      requires Separated()
      modifies `sessions
      ensures fresh(session) && session !in old(sessions)
      ensures Abs() == old(Abs()).(sessions := old(Uuids())[session := uuid]) && session in sessions
    {
      session := new Session(uuid);
      sessions := sessions + {session};
      assert Uuids() == old(Uuids())[session := uuid];
    }
  }

  lemma OpenedAt(slots: seq<Slot>, es: seq<Entry<Session>>, uuid: Uuid, id: seq<byte>, i: nat)
    requires i < |es|
    ensures FindOpened(slots, es, uuid, id, i) ==
            if Opens(slots, es[i], uuid, id) then Some(i) else FindOpened(slots, es, uuid, id, i + 1)
  {
  }

  /** Where the entry of a slot that is being served sits, and whether its token is finished. */
  lemma WhereItIs(es: seq<Entry<Session>>, slot: nat, i: nat)
    requires if Finished(es) then Holds(es, slot) else JustInserted(es, slot)
    requires i <= |es| && (i < |es| <==> HasHandle(es, slot)) && (i < |es| ==> es[i].slot == slot)
    ensures i < |es|
    ensures if Finished(es) then ValidToken(es[i].token) && es[i].token[0] != 0
            else i == |es| - 1 && es[i].token == Zeros(HANDLE_SIZE)
  {
    if !Finished(es) {
      assert es[|es| - 1].slot == slot;
    }
  }

  lemma Appended(es: seq<Entry<Session>>, e: Entry<Session>)
    requires Finished(es) && !Holds(es, e.slot) && e.token == Zeros(HANDLE_SIZE)
    ensures JustInserted(es + [e], e.slot) && !Finished(es + [e])
    ensures (es + [e])[..|es|] == es
  {
    assert (es + [e])[..|es|] == es;
    assert (es + [e])[|es|].token[0] == 0;
  }

  /** One step of the walk: the next entry is either dropped or kept. */
  lemma WalkStep(kept: seq<Entry<Session>>, rest: seq<Entry<Session>>, s: Session)
    requires rest != []
    ensures kept + WithoutOwner(rest, s) ==
            (if rest[0].owner == s then kept else kept + [rest[0]]) + WithoutOwner(rest[1..], s)
  {
    var tail := WithoutOwner(rest[1..], s);
    if rest[0].owner == s {
      assert WithoutOwner(rest, s) == tail;
    } else {
      assert WithoutOwner(rest, s) == [rest[0]] + tail;
      assert kept + ([rest[0]] + tail) == (kept + [rest[0]]) + tail;
    }
  }
}
