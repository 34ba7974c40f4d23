/**
 Two handles with one token: with the shipped slots and the counter generator, a
 random number request of 222 bytes between two fetches makes the tokens equal.
 */
module TokenClash {
  import opened Bytes
  import opened CounterProvider
  import opened AccessToken
  import opened CounterTokens
  import opened CounterHandles
  import opened SlotTable
  import opened SharedGenerator
  import K = HwkeySpec
  import H = HwkeyRuns
  import R = HwrngSpec

  /** Positions of the app loader's two encryption keys in the table. */
  const KEY_0: nat := 4
  const KEY_1: nat := 5

  const NAME_0 := "com.android.trusty.apploader.encrypt.key.0"
  const NAME_1 := "com.android.trusty.apploader.encrypt.key.1"

  lemma FirstThatServes(slots: seq<K.Slot>, uuid: K.Uuid, id: seq<byte>, k: nat)
    requires k < |slots| && K.Serves(slots[k], uuid, id)
    requires forall i :: 0 <= i < k ==> !K.Serves(slots[i], uuid, id)
    ensures K.FindSlot(slots, uuid, id) == Some(k)
  {
  }

  lemma NamesDiffer()
    ensures Ascii(NAME_0) != Ascii(NAME_1)
  {
    assert Ascii(NAME_0)[41] == 48 && Ascii(NAME_1)[41] == 49;
  }

  /** A message holding a printable name spells it. */
  lemma Spelled(name: string)
    requires forall i :: 0 <= i < |name| ==> name[i] >= '.' && name[i] <= 'z'
    ensures CString(Ascii(name)) == Ascii(name)
  {
    assert 0 !in Ascii(name);
    CStringIsUnique(Ascii(name), Ascii(name));
  }

  lemma Name0Spelled()
    ensures CString(Ascii(NAME_0)) == Ascii(NAME_0)
  {
    assert forall i :: 0 <= i < |NAME_0| ==> NAME_0[i] >= '.' && NAME_0[i] <= 'z';
    Spelled(NAME_0);
  }

  lemma Name1Spelled()
    ensures CString(Ascii(NAME_1)) == Ascii(NAME_1)
  {
    assert forall i :: 0 <= i < |NAME_1| ==> NAME_1[i] >= '.' && NAME_1[i] <= 'z';
    Spelled(NAME_1);
  }

  lemma KeySlots(apps: Apps)
    ensures K.FindSlot(ShippedSlots(apps), apps.apploader, Ascii(NAME_0)) == Some(KEY_0)
    ensures K.FindSlot(ShippedSlots(apps), apps.apploader, Ascii(NAME_1)) == Some(KEY_1)
    ensures ShippedSlots(apps)[KEY_0].handler == K.KeyHandle([apps.hwaes])
    ensures ShippedSlots(apps)[KEY_1].handler == K.KeyHandle([apps.hwaes])
  {
    var slots, product := ShippedSlots(apps), ProductSlots(apps);
    assert forall i :: 0 <= i < 6 ==> slots[i] == product[i];
    assert forall i :: 0 <= i < 4 ==> |product[i].keyId| != |NAME_0|;
    NamesDiffer();
    FirstThatServes(slots, apps.apploader, Ascii(NAME_0), KEY_0);
    FirstThatServes(slots, apps.apploader, Ascii(NAME_1), KEY_1);
  }

  /** The random number service with one client, who is waiting for nothing. */
  ghost function Idle(drawn: nat): R.State<nat> {
    R.State([], map[0 := R.Chan(0, false)], drawn)
  }

  function AskFor(n: nat): R.Event<nat> {
    R.ChanEvent(0, false, false, R.Req(n), map[])
  }

  lemma LoneRequest(modulus: nat, stream: nat -> byte, drawn: nat, n: nat)
    requires IsSizeModulus(modulus) && 0 < n <= R.MAX_MSG_SIZE
    ensures R.Inv(modulus, Idle(drawn)) && R.Enabled(Idle(drawn), AskFor(n))
    ensures R.Step(modulus, stream, Idle(drawn), AskFor(n)).st == Idle(drawn + n)
  {
    var env: map<nat, R.Attempt> := map[];
    var st := R.BeforeKick(modulus, Idle(drawn), AskFor(n));
    assert st.queue == [0] && st.chans == map[0 := R.Chan(n, false)];
    assert R.At(env, 0) == R.Attempt(true, R.Sent);
    assert R.Kept(st.queue, st.chans, env, 0) == [] && R.TotalConsumed(st.queue, st.chans, env, 0) == 0;
    assert R.Survivors(st.queue, st.chans, env) == Idle(drawn).chans;
  }

  // ----- the run

  type Sys = System<nat, nat>

  type Ev = SystemEvent<nat, nat>

  /** Nobody is connected yet, and `d` bytes have been drawn; at start-up, none. */
  ghost function Quiet(d: nat): Sys {
    System(K.State(map[], [], d), R.State([], map[], d))
  }

  /** Session 0 belongs to the slots' owner, session 1 to a reader; `handles` have been issued. */
  ghost function Now(owner: K.Uuid, reader: K.Uuid, handles: seq<K.Entry<nat>>, drawn: nat): Sys {
    System(K.State(map[0 := owner, 1 := reader], handles, drawn), Idle(drawn))
  }

  function Fetch(id: seq<byte>, keys: nat -> K.Reply): K.Event<nat> {
    K.Request(0, K.GetKeyslot(id), K.Env(keys, true, DrawScript(0, true)), true)
  }

  function Redeem(token: seq<byte>, keys: nat -> K.Reply): K.Event<nat> {
    K.Request(1, K.GetKeyslot(token), K.Env(keys, true, DrawScript(0, true)), true)
  }

  function Connect(s: nat, uuid: K.Uuid): K.Event<nat> {
    K.Connect(s, uuid, true, true, true)
  }

  /** Two sessions and a random number client connect; a fetch; a request for 222 bytes. */
  ghost function Prelude(owner: K.Uuid, reader: K.Uuid, id0: seq<byte>, keys: nat -> K.Reply): seq<Ev> {
    [KeyEvent(Connect(0, owner)), KeyEvent(Connect(1, reader)), RngEvent(R.Connect(0))]
    + [KeyEvent(Fetch(id0, keys))] + [RngEvent(AskFor(222))]
  }

  /** Two slots of one owner, for which the same reader may redeem handles. */
  ghost predicate Setting(p: Setup, owner: K.Uuid, reader: K.Uuid, id0: seq<byte>, k0: nat, id1: seq<byte>, k1: nat) {
    && IsSizeModulus(p.modulus) && p.cfg.stream == CounterStream()
    && owner in p.cfg.clients && reader in p.cfg.clients
    && |id0| <= K.MAX_PAYLOAD_SIZE && |id1| <= K.MAX_PAYLOAD_SIZE && k0 != k1
    && K.FindSlot(p.cfg.slots, owner, CString(id0)) == Some(k0)
    && K.FindSlot(p.cfg.slots, owner, CString(id1)) == Some(k1)
    && p.cfg.slots[k0].handler.KeyHandle? && reader in p.cfg.slots[k0].handler.allowed
    && p.cfg.slots[k1].handler.KeyHandle?
  }

  /** The token drawn at offset `d`. */
  ghost function TokenAt(d: nat): (token: seq<byte>)
    ensures Accepted(Draw(CounterStream(), d, 0)) && token == TokenOf(Draw(CounterStream(), d, 0))
  {
    FirstDrawIsAccepted(d);
    TokenOf(Draw(CounterStream(), d, 0))
  }

  lemma TokenRecurs(d: nat)
    ensures TokenAt(d + 256) == TokenAt(d)
  {
    CounterPeriod(d);
    assert FirstNonZero(d + 256) == FirstNonZero(d);
    TokensCollideIffFirstBytesAgree(d, d + 256);
  }

  /** These sessions and channels exist, and `d` bytes have been drawn. */
  ghost function Open(sessions: map<nat, K.Uuid>, chans: map<nat, R.Chan>, d: nat): Sys {
    System(K.State(sessions, [], d), R.State([], chans, d))
  }

  lemma SessionOpens(p: Setup, sessions: map<nat, K.Uuid>, d: nat, s: nat, uuid: K.Uuid)
    requires IsSizeModulus(p.modulus) && uuid in p.cfg.clients && s !in sessions
    ensures Ok(p, Open(sessions, map[], d)) && Enabled(Open(sessions, map[], d), p, KeyEvent(Connect(s, uuid)))
    ensures Step(p, Open(sessions, map[], d), KeyEvent(Connect(s, uuid))).sys == Open(sessions[s := uuid], map[], d)
  {
  }

  lemma ChannelOpens(p: Setup, sessions: map<nat, K.Uuid>, d: nat)
    requires IsSizeModulus(p.modulus)
    ensures Ok(p, Open(sessions, map[], d)) && Enabled(Open(sessions, map[], d), p, RngEvent(R.Connect(0)))
    ensures Step(p, Open(sessions, map[], d), RngEvent(R.Connect(0))).sys
            == Open(sessions, map[0 := R.Chan(0, false)], d)
  {
  }

  lemma Connecting(p: Setup, owner: K.Uuid, reader: K.Uuid, d: nat)
    requires IsSizeModulus(p.modulus) && owner in p.cfg.clients && reader in p.cfg.clients
    ensures var evs: seq<Ev> := [KeyEvent(Connect(0, owner)), KeyEvent(Connect(1, reader)), RngEvent(R.Connect(0))];
            && Ok(p, Quiet(d)) && Runs(p, Quiet(d), evs)
            && Run(p, Quiet(d), evs).sys == Now(owner, reader, [], d)
  {
    var e0: Ev, e1: Ev, e2: Ev := KeyEvent(Connect(0, owner)), KeyEvent(Connect(1, reader)), RngEvent(R.Connect(0));
    var one: map<nat, K.Uuid> := map[][0 := owner];
    SessionOpens(p, map[], d, 0, owner);
    SessionOpens(p, one, d, 1, reader);
    ChannelOpens(p, one[1 := reader], d);
    assert one[1 := reader] == map[0 := owner, 1 := reader];
    assert [] + [e0] == [e0] && [e0] + [e1] == [e0, e1] && [e0, e1] + [e2] == [e0, e1, e2];
    RunSnoc(p, Quiet(d), [], e0);
    RunSnoc(p, Quiet(d), [e0], e1);
    RunSnoc(p, Quiet(d), [e0, e1], e2);
  }

  lemma FetchingFirst(p: Setup, owner: K.Uuid, reader: K.Uuid, id0: seq<byte>, k0: nat, id1: seq<byte>, k1: nat,
                      keys: nat -> K.Reply, d: nat)
    requires Setting(p, owner, reader, id0, k0, id1, k1)
    ensures Ok(p, Now(owner, reader, [], d)) && Enabled(Now(owner, reader, [], d), p, KeyEvent(Fetch(id0, keys)))
    ensures Step(p, Now(owner, reader, [], d), KeyEvent(Fetch(id0, keys))).sys
            == Now(owner, reader, [K.Entry(k0, 0, TokenAt(d))], d + DRAW_SIZE)
  {
    FirstFetch(p.cfg, Now(owner, reader, [], d).key, 0, id0, k0, keys);
    assert [] + [K.Entry(k0, 0, TokenAt(d))] == [K.Entry(k0, 0, TokenAt(d))];
  }

  lemma Requesting(p: Setup, owner: K.Uuid, reader: K.Uuid, handles: seq<K.Entry<nat>>, d: nat, n: nat)
    requires IsSizeModulus(p.modulus) && 0 < n <= R.MAX_MSG_SIZE
    ensures Ok(p, Now(owner, reader, handles, d))
    ensures Enabled(Now(owner, reader, handles, d), p, RngEvent(AskFor(n)))
    ensures Step(p, Now(owner, reader, handles, d), RngEvent(AskFor(n))).sys == Now(owner, reader, handles, d + n)
  {
    LoneRequest(p.modulus, p.cfg.stream, d, n);
  }

  lemma AfterPrelude(p: Setup, owner: K.Uuid, reader: K.Uuid, id0: seq<byte>, k0: nat, id1: seq<byte>, k1: nat,
                     keys: nat -> K.Reply, d: nat)
    requires Setting(p, owner, reader, id0, k0, id1, k1)
    ensures Ok(p, Quiet(d)) && Runs(p, Quiet(d), Prelude(owner, reader, id0, keys))
    ensures Run(p, Quiet(d), Prelude(owner, reader, id0, keys)).sys
            == Now(owner, reader, [K.Entry(k0, 0, TokenAt(d))], d + 256)
  {
    var evs: seq<Ev> := [KeyEvent(Connect(0, owner)), KeyEvent(Connect(1, reader)), RngEvent(R.Connect(0))];
    Connecting(p, owner, reader, d);
    FetchingFirst(p, owner, reader, id0, k0, id1, k1, keys, d);
    RunSnoc(p, Quiet(d), evs, KeyEvent(Fetch(id0, keys)));
    Requesting(p, owner, reader, [K.Entry(k0, 0, TokenAt(d))], d + DRAW_SIZE, 222);
    RunSnoc(p, Quiet(d), evs + [KeyEvent(Fetch(id0, keys))], RngEvent(AskFor(222)));
  }

  /** Of two handles with one token, the first in the list is the one redeemed. */
  lemma FirstIsRedeemed(c: K.Config, st: K.State<nat>, k: nat, token: seq<byte>, keys: nat -> K.Reply)
    requires ValidToken(token) && H.NoSlotNamed(c.slots, CString(token)) && 1 in st.sessions
    requires st.handles != [] && K.Opens(c.slots, st.handles[0], st.sessions[1], CString(token))
    requires st.handles[0].slot == k
    ensures K.Enabled(c, st, Redeem(token, keys))
    ensures K.Step(c, st, Redeem(token, keys)).reply == Some(keys(k))
  {
    H.AskUnnamed(c, st, 1, token, Redeem(token, keys).env);
    assert K.FindOpened(c.slots, st.handles, st.sessions[1], CString(token)) == Some(0);
  }

  /** What the second fetch and the reader's request come to. */
  ghost predicate Clashes(c: K.Config, st: K.State<nat>, id1: seq<byte>, k0: nat, k1: nat, token: seq<byte>,
                          keys: nat -> K.Reply) {
    && H.Issues(c, st, Fetch(id1, keys), k1, token)
    && var st' := K.Step(c, st, Fetch(id1, keys)).st;
       && K.Enabled(c, st', Redeem(token, keys))
       && K.Step(c, st', Redeem(token, keys)).reply == Some(keys(k0))
  }

  /**
   Both services, wherever the counter stands: after the prelude the second fetch is
   answered with the token of the first, and the reader who presents it gets the first
   slot's key.
   */
  lemma SecondHandleOpensFirstKey(p: Setup, owner: K.Uuid, reader: K.Uuid, id0: seq<byte>, k0: nat,
                                  id1: seq<byte>, k1: nat, keys: nat -> K.Reply, d: nat)
    requires Setting(p, owner, reader, id0, k0, id1, k1) && H.NoSlotNamed(p.cfg.slots, CString(TokenAt(d)))
    ensures Ok(p, Quiet(d)) && Runs(p, Quiet(d), Prelude(owner, reader, id0, keys))
    ensures Clashes(p.cfg, Run(p, Quiet(d), Prelude(owner, reader, id0, keys)).sys.key, id1, k0, k1, TokenAt(d), keys)
  {
    AfterPrelude(p, owner, reader, id0, k0, id1, k1, keys, d);
    var first := K.Entry(k0, 0, TokenAt(d));
    var st := Now(owner, reader, [first], d + 256).key;
    TokenRecurs(d);
    FirstFetch(p.cfg, st, 0, id1, k1, keys);
    var st' := K.Step(p.cfg, st, Fetch(id1, keys)).st;
    assert st'.handles[0] == first;
    FirstIsRedeemed(p.cfg, st', k0, TokenAt(d), keys);
  }

  /** With the slots as shipped: the handle of one encryption key of the app loader opens the other one. */
  lemma ShippedHandlesClash(apps: Apps, modulus: nat, keys: nat -> K.Reply, d: nat)
    requires IsSizeModulus(modulus)
    ensures var p := Setup(K.Config(ShippedSlots(apps), [apps.apploader, apps.hwaes], CounterStream()), modulus);
            var prelude := Prelude(apps.apploader, apps.hwaes, Ascii(NAME_0), keys);
            && Ok(p, Quiet(d)) && Runs(p, Quiet(d), prelude)
            && Clashes(p.cfg, Run(p, Quiet(d), prelude).sys.key, Ascii(NAME_1), KEY_0, KEY_1, TokenAt(d), keys)
  {
    var p := Setup(K.Config(ShippedSlots(apps), [apps.apploader, apps.hwaes], CounterStream()), modulus);
    KeySlots(apps);
    Name0Spelled();
    Name1Spelled();
    TokenNamesNoSlot(apps, TokenAt(d));
    SecondHandleOpensFirstKey(p, apps.apploader, apps.hwaes, Ascii(NAME_0), KEY_0, Ascii(NAME_1), KEY_1, keys, d);
  }
}
