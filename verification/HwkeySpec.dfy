/**
 The key service as a state machine: sessions come and go, fetch key slots, and
 redeem opaque handles. Results of the environment (allocation, random device,
 message transport, the slots' own key retrievers) are part of each event.

 A session is identified by a value of type `S`, which stands for the address of
 its context: it may be reused once the session has been closed. Other users of the
 same generator may draw from it between any two events (`OthersDraw`).
 */
module HwkeySpec {
  import opened Bytes
  import opened CounterProvider
  import opened AccessToken

  const MAX_PAYLOAD_SIZE: nat := 2048

  type Uuid = nat

  /** What serves a slot: nothing, its own retriever, or `get_key_handle` with the uuids allowed to redeem. */
  datatype Handler = NoHandler | Direct | KeyHandle(allowed: seq<Uuid>)

  datatype Slot = Slot(keyId: seq<byte>, uuid: Uuid, handler: Handler)

  datatype Status =
    | NoError
    | Generic
    | NotFound
    | AlreadyExists
    | NotImplemented
    | BadLen
    | RngFailed
    | Other(code: nat)

  datatype Reply = Reply(status: Status, data: seq<byte>)

  datatype Config = Config(slots: seq<Slot>, clients: seq<Uuid>, stream: nat -> byte)

  datatype Entry<S> = Entry(slot: nat, owner: S, token: seq<byte>)

  datatype State<S> = State(sessions: map<S, Uuid>, handles: seq<Entry<S>>, drawn: nat)

  /** What the world answers during one request; `keys(i)` is what slot `i`'s retriever would return. */
  datatype Env = Env(keys: nat -> Reply, allocOk: bool, script: DrawScript)

  datatype Command =
    | GetKeyslot(payload: seq<byte>)
    | Derive(payload: seq<byte>, result: Reply)
    | Unsupported(payload: seq<byte>)

  datatype Event<S> =
    | Connect(s: S, uuid: Uuid, acceptOk: bool, allocOk: bool, cookieOk: bool)
    | HangUp(s: S)
    | RecvFailed(s: S)
    | Request(s: S, cmd: Command, env: Env, sendOk: bool)
    | OthersDraw(n: nat)

  datatype Outcome<S> = Outcome(st: State<S>, reply: Option<Reply>)

  // ----- looking things up

  predicate Serves(slot: Slot, uuid: Uuid, id: seq<byte>) {
    slot.keyId == id && slot.uuid == uuid && slot.handler != NoHandler
  }

  /** The first slot of that name which the client owns and which has a handler. */
  function FindSlot(slots: seq<Slot>, uuid: Uuid, id: seq<byte>, from: nat := 0): (r: Option<nat>)
    requires from <= |slots|
    ensures r.Some? ==> from <= r.value < |slots| && Serves(slots[r.value], uuid, id)
    ensures forall i :: from <= i < (if r.Some? then r.value else |slots|) ==> !Serves(slots[i], uuid, id)
    decreases |slots| - from
  {
    if from == |slots| then None
    else if Serves(slots[from], uuid, id) then Some(from)
    else FindSlot(slots, uuid, id, from + 1)
  }

  ghost predicate HasHandle<S>(handles: seq<Entry<S>>, slot: nat) {
    exists i :: 0 <= i < |handles| && handles[i].slot == slot
  }

  /** May `uuid`, presenting the string `id`, read the key behind this entry? */
  ghost predicate Opens<S>(slots: seq<Slot>, e: Entry<S>, uuid: Uuid, id: seq<byte>) {
    && e.slot < |slots|
    && slots[e.slot].handler.KeyHandle?
    && uuid in slots[e.slot].handler.allowed
    && CString(e.token) == id
  }

  ghost function FindOpened<S>(slots: seq<Slot>, handles: seq<Entry<S>>, uuid: Uuid, id: seq<byte>, from: nat := 0)
    : (r: Option<nat>)
    requires from <= |handles|
    ensures r.Some? ==> from <= r.value < |handles| && Opens(slots, handles[r.value], uuid, id)
    ensures forall i :: from <= i < (if r.Some? then r.value else |handles|) ==> !Opens(slots, handles[i], uuid, id)
    decreases |handles| - from
  {
    if from == |handles| then None
    else if Opens(slots, handles[from], uuid, id) then Some(from)
    else FindOpened(slots, handles, uuid, id, from + 1)
  }

  // ----- what one event does

  ghost function Redeem<S>(c: Config, st: State<S>, uuid: Uuid, id: seq<byte>, keys: nat -> Reply): Reply {
    match FindOpened(c.slots, st.handles, uuid, id)
    case Some(i) => keys(st.handles[i].slot)
    case None => Reply(NotFound, [])
  }

  /** Does this fetch reach the token generator, that is, is it the first for a free handle slot? */
  ghost predicate DrawsToken<S>(c: Config, st: State<S>, uuid: Uuid, id: seq<byte>, env: Env) {
    var k := FindSlot(c.slots, uuid, id);
    k.Some? && c.slots[k.value].handler.KeyHandle? && !HasHandle(st.handles, k.value) && env.allocOk
  }

  ghost predicate FetchTerminates<S>(c: Config, st: State<S>, uuid: Uuid, id: seq<byte>, env: Env) {
    DrawsToken(c, st, uuid, id, env) ==> Terminates(c.stream, st.drawn, env.script)
  }

  /** What the token generator hands to the client. */
  ghost function TokenReply(stream: nat -> byte, drawn: nat, script: DrawScript): Reply
    requires Terminates(stream, drawn, script)
  {
    if script.ok then
      Reply(NoError, TokenOf(Draw(stream, drawn, script.rejected)))
    else
      Reply(RngFailed, [])
  }

  ghost function NewEntries<S>(slot: nat, owner: S, reply: Reply): seq<Entry<S>> {
    if reply.status == NoError then [Entry(slot, owner, reply.data)] else []
  }

  ghost function Fetch<S>(c: Config, st: State<S>, s: S, uuid: Uuid, id: seq<byte>, env: Env): Outcome<S>
    requires FetchTerminates(c, st, uuid, id, env)
  {
    var k := FindSlot(c.slots, uuid, id);
    if DrawsToken(c, st, uuid, id, env) then
      var reply := TokenReply(c.stream, st.drawn, env.script);
      var handles := st.handles + NewEntries(k.value, s, reply);
      Outcome(st.(handles := handles, drawn := st.drawn + BytesUsed(env.script)), Some(reply))
    else if k.None? then
      Outcome(st, Some(Redeem(c, st, uuid, id, env.keys)))
    else if c.slots[k.value].handler.Direct? then
      Outcome(st, Some(env.keys(k.value)))
    else if HasHandle(st.handles, k.value) then
      Outcome(st, Some(Reply(AlreadyExists, [])))
    else
      Outcome(st, Some(Reply(Generic, [])))
  }

  /** The entries of `handles` owned by someone other than `s`, in order. */
  ghost function WithoutOwner<S>(handles: seq<Entry<S>>, s: S): seq<Entry<S>> {
    if handles == [] then
      []
    else
      (if handles[0].owner == s then [] else [handles[0]]) + WithoutOwner(handles[1..], s)
  }

  lemma {:induction false} WithoutOwnerMembers<S>(handles: seq<Entry<S>>, s: S)
    ensures forall e :: e in WithoutOwner(handles, s) ==> e in handles && e.owner != s
    ensures forall e :: e in handles && e.owner != s ==> e in WithoutOwner(handles, s)
  {
    if handles != [] {
      WithoutOwnerMembers(handles[1..], s);
      assert handles == [handles[0]] + handles[1..];
    }
  }

  ghost function Close<S>(st: State<S>, s: S): State<S> {
    st.(sessions := st.sessions - {s}, handles := WithoutOwner(st.handles, s))
  }

  ghost predicate Enabled<S>(c: Config, st: State<S>, ev: Event<S>) {
    match ev
    case Connect(s, _, _, _, _) => s !in st.sessions
    case HangUp(s) => s in st.sessions
    case RecvFailed(s) => s in st.sessions
    case Request(s, cmd, env, _) =>
      && s in st.sessions
      && |cmd.payload| <= MAX_PAYLOAD_SIZE
      && (cmd.GetKeyslot? ==>
            FetchTerminates(c, st, st.sessions[s], CString(cmd.payload), env))
    case OthersDraw(_) => true
  }

  ghost function Respond<S>(c: Config, st: State<S>, s: S, cmd: Command, env: Env): Outcome<S>
    requires Enabled(c, st, Request(s, cmd, env, true))
  {
    match cmd
    case GetKeyslot(payload) => Fetch(c, st, s, st.sessions[s], CString(payload), env)
    case Derive(_, result) => Outcome(st, Some(result))
    case Unsupported(_) => Outcome(st, Some(Reply(NotImplemented, [])))
  }

  ghost function Step<S>(c: Config, st: State<S>, ev: Event<S>): Outcome<S>
    requires Enabled(c, st, ev)
  {
    match ev
    case Connect(s, uuid, acceptOk, allocOk, cookieOk) =>
      if acceptOk && uuid in c.clients && allocOk && cookieOk then
        Outcome(st.(sessions := st.sessions[s := uuid]), None)
      else
        Outcome(st, None)
    case HangUp(s) => Outcome(Close(st, s), None)
    case RecvFailed(s) => Outcome(Close(st, s), None)
    case Request(s, cmd, env, sendOk) =>
      var answered := Respond(c, st, s, cmd, env);
      if sendOk then answered else Outcome(Close(answered.st, s), None)
    case OthersDraw(n) => Outcome(st.(drawn := st.drawn + n), None)
  }

  // ----- runs

  ghost predicate Runs<S>(c: Config, st: State<S>, evs: seq<Event<S>>)
    decreases |evs|
  {
    evs == [] || (Enabled(c, st, evs[0]) && Runs(c, Step(c, st, evs[0]).st, evs[1..]))
  }

  ghost function Run<S>(c: Config, st: State<S>, evs: seq<Event<S>>): State<S>
    requires Runs(c, st, evs)
    decreases |evs|
  {
    if evs == [] then st else Run(c, Step(c, st, evs[0]).st, evs[1..])
  }

  ghost function Start<S>(): State<S> {
    State(map[], [], 0)
  }

  // ----- the invariant

  ghost predicate ValidEntry<S>(c: Config, st: State<S>, e: Entry<S>) {
    && e.slot < |c.slots|
    && c.slots[e.slot].handler.KeyHandle?
    && e.owner in st.sessions
    && st.sessions[e.owner] == c.slots[e.slot].uuid
    && ValidToken(e.token)
  }

  ghost predicate Inv<S>(c: Config, st: State<S>) {
    && (forall e :: e in st.handles ==> ValidEntry(c, st, e))
    && OnePerSlot(st.handles)
  }

  ghost predicate OnePerSlot<S>(handles: seq<Entry<S>>) {
    forall i, j :: 0 <= i < j < |handles| ==> handles[i].slot != handles[j].slot
  }
}
