/**
 The AES service: what one operation answers, as a function of its arguments, of the
 key service's reply and of which crypto library calls fail. An argument that is
 missing (null or empty) is the empty sequence here, or an output without room.
 */
module HwaesSpec {
  import opened Bytes
  import opened BitOps
  import opened Cbc
  import opened Evp

  datatype Code = Success | InvalidArgs | Generic | Io | NotImplemented

  datatype Mode = CbcMode | GcmMode | OtherMode

  datatype Args = Args(
    opaqueKey: bool, key: seq<byte>, mode: Mode, encrypt: bool, noPadding: bool,
    iv: seq<byte>, textIn: seq<byte>, aad: seq<byte>, tagIn: seq<byte>)

  /** What asking the key service for the key behind a handle comes to. */
  datatype Fetched = OpenFailed | Denied | Key(key: seq<byte>)

  datatype Call = InitAlg | InitKey | SetPadding | UpdateAad | SetTag | UpdateText | Final | GetTag

  /** `maxHandle` is the longest handle the key service hands out. */
  datatype Env = Env(fetched: Fetched, fails: set<Call>, maxHandle: nat)

  datatype Resolved = Use(key: seq<byte>) | Refuse(code: Code)

  datatype Answer = Answer(code: Code, text: seq<byte>, tag: seq<byte>)

  function CheckBuffers(a: Args, room: nat): Code {
    if !a.noPadding then NotImplemented
    else if a.key == [] || a.textIn == [] || room == 0 || |a.textIn| != room then InvalidArgs
    else Success
  }

  /** The key to work with: as given, or fetched with a well-formed handle. */
  function Resolve(a: Args, e: Env): Resolved {
    if !a.opaqueKey then
      Use(a.key)
    else if a.key == [] || |a.key| > e.maxHandle || a.key[|a.key| - 1] != 0 then
      Refuse(InvalidArgs)
    else
      match e.fetched
      case OpenFailed => Refuse(Generic)
      case Denied => Refuse(Io)
      case Key(k) => Use(k)
  }

  function CheckMode(a: Args, key: seq<byte>, tagRoom: nat): Code {
    if a.mode.OtherMode? then
      NotImplemented
    else if !IsAesKey(key) then
      InvalidArgs
    else if a.mode.CbcMode? then
      if a.aad != [] || a.tagIn != [] || tagRoom > 0 then InvalidArgs else Success
    else
      if a.encrypt == (a.tagIn != []) || a.encrypt == (tagRoom == 0) then InvalidArgs else Success
  }

  function AlgOf(mode: Mode): Alg {
    if mode.CbcMode? then CbcAlg else GcmAlg
  }

  /** The text has whole blocks and the initialization vector its proper length. */
  predicate Fits(a: Args) {
    |a.textIn| % BlockSize(AlgOf(a.mode)) == 0 && |a.iv| == IvLength(AlgOf(a.mode))
  }

  predicate FeedWorks(a: Args, fails: set<Call>) {
    && (a.aad != [] ==> UpdateAad !in fails)
    && (a.tagIn != [] ==> SetTag !in fails && |a.tagIn| <= BLOCK)
    && UpdateText !in fails
  }

  function Output(p: Prims, a: Args, key: seq<byte>): (r: seq<byte>)
    requires Sized(p) && Fits(a)
    ensures |r| == |a.textIn|
  {
    Crypt(p, AlgOf(a.mode), a.encrypt, key, a.iv, a.textIn)
  }

  function FullTag(p: Prims, a: Args, key: seq<byte>): (t: seq<byte>)
    requires Sized(p) && Fits(a)
    ensures |t| == BLOCK
  {
    Tag(p, a.encrypt, key, a.iv, a.aad, a.textIn, Output(p, a, key))
  }

  /** Whether the tag presented for decryption is the beginning of the right one. */
  predicate TagAccepted(p: Prims, a: Args, key: seq<byte>)
    requires Sized(p) && Fits(a)
  {
    a.mode.GcmMode? && !a.encrypt ==> a.tagIn <= FullTag(p, a, key)
  }

  function Finished(p: Prims, a: Args, key: seq<byte>, tag: seq<byte>, fails: set<Call>): Answer
    requires Sized(p) && Fits(a)
  {
    var out := Output(p, a, key);
    if Final in fails || !TagAccepted(p, a, key) then
      Answer(Generic, out, tag)
    else if tag == [] then
      Answer(Success, out, tag)
    else if GetTag in fails || |tag| > BLOCK then
      Answer(Generic, out, tag)
    else
      Answer(Success, out, FullTag(p, a, key)[..|tag|])
  }

  function Computed(p: Prims, a: Args, key: seq<byte>, text: seq<byte>, tag: seq<byte>, fails: set<Call>): Answer
    requires Sized(p)
  {
    if InitAlg in fails then
      Answer(Generic, text, tag)
    else if !Fits(a) then
      Answer(InvalidArgs, text, tag)
    else if InitKey in fails || SetPadding in fails || !FeedWorks(a, fails) then
      Answer(Generic, text, tag)
    else
      Finished(p, a, key, tag, fails)
  }

  /** The whole operation; `text` and `tag` are the output buffers before it. */
  function AesOp(p: Prims, a: Args, text: seq<byte>, tag: seq<byte>, e: Env): Answer
    requires Sized(p)
  {
    var buffers := CheckBuffers(a, |text|);
    if buffers != Success then
      Answer(buffers, text, tag)
    else
      match Resolve(a, e)
      case Refuse(code) => Answer(code, text, tag)
      case Use(key) =>
        var mode := CheckMode(a, key, |tag|);
        if mode != Success then
          Answer(mode, text, tag)
        else
          Computed(p, a, key, text, tag, e.fails)
  }

  // ----- exactly when an operation succeeds, and what it answers when it does not

  /** `k` is the key that the caller gives, or that a handle of proper form stands for. */
  predicate HasKey(a: Args, e: Env, k: seq<byte>) {
    if a.opaqueKey then ProperHandle(a, e) && e.fetched == Key(k) else k == a.key
  }

  predicate ProperHandle(a: Args, e: Env) {
    0 < |a.key| <= e.maxHandle && a.key[|a.key| - 1] == 0
  }

  /** The buffers that every request needs are there. */
  predicate ProperBuffers(a: Args, room: nat) {
    a.noPadding && a.key != [] && a.textIn != [] && |a.textIn| == room
  }

  /** What each mode wants to be passed besides. */
  predicate ProperTags(a: Args, tagRoom: nat) {
    if a.mode.CbcMode? then a.aad == [] && a.tagIn == [] && tagRoom == 0
    else if a.encrypt then a.tagIn == [] && tagRoom > 0
    else a.tagIn != [] && tagRoom == 0
  }

  predicate ProperSizes(a: Args) {
    if a.mode.CbcMode? then |a.textIn| % 16 == 0 && |a.iv| == 16 else |a.iv| == 12
  }

  /** One of the calls needed for the request fails, or the tag is longer than any or wrong. */
  predicate Fails(p: Prims, a: Args, k: seq<byte>, tagRoom: nat, fails: set<Call>) {
    || InitKey in fails || SetPadding in fails || UpdateText in fails || Final in fails
    || (a.aad != [] && UpdateAad in fails)
    || (a.tagIn != [] && (SetTag in fails || |a.tagIn| > 16 || !(a.tagIn <= p.mac(k, a.iv, a.aad, a.textIn))))
    || (tagRoom > 0 && (GetTag in fails || tagRoom > 16))
  }

  /** These are the requests that get an answer. */
  lemma SucceedsIff(p: Prims, a: Args, text: seq<byte>, tag: seq<byte>, e: Env)
    requires Sized(p)
    ensures AesOp(p, a, text, tag, e).code == Success <==>
            && ProperBuffers(a, |text|) && !a.mode.OtherMode? && ProperTags(a, |tag|) && ProperSizes(a)
            && InitAlg !in e.fails
            && exists k :: HasKey(a, e, k) && |k| in {16, 32} && !Fails(p, a, k, |tag|, e.fails)
  {
    ResolvesIff(a, e);
    if Resolve(a, e).Use? {
      AnswersWithKey(p, a, text, tag, e, Resolve(a, e).key);
    }
  }

  lemma ResolvesIff(a: Args, e: Env)
    ensures forall k :: HasKey(a, e, k) <==> Resolve(a, e) == Use(k)
  {
  }

  /** Which of the codes a request with a key gets; the first check that fails decides. */
  lemma AnswersWithKey(p: Prims, a: Args, text: seq<byte>, tag: seq<byte>, e: Env, k: seq<byte>)
    requires Sized(p) && HasKey(a, e, k)
    ensures AesOp(p, a, text, tag, e).code ==
            if !a.noPadding then NotImplemented
            else if !ProperBuffers(a, |text|) then InvalidArgs
            else if a.mode.OtherMode? then NotImplemented
            else if |k| !in {16, 32} || !ProperTags(a, |tag|) then InvalidArgs
            else if InitAlg in e.fails then Generic
            else if !ProperSizes(a) then InvalidArgs
            else if Fails(p, a, k, |tag|, e.fails) then Generic
            else Success
  {
  }

  /** And without one: a handle of improper form, or a key service that does not give the key away. */
  lemma AnswersWithoutKey(p: Prims, a: Args, text: seq<byte>, tag: seq<byte>, e: Env)
    requires Sized(p) && forall k :: !HasKey(a, e, k)
    ensures AesOp(p, a, text, tag, e) ==
            Answer(if !a.noPadding then NotImplemented
                   else if !ProperBuffers(a, |text|) || !ProperHandle(a, e) then InvalidArgs
                   else if e.fetched.OpenFailed? then Generic
                   else Io, text, tag)
  {
    ResolvesIff(a, e);
  }

  // ----- decryption undoes encryption

  /**
   The output and tag of any successful encryption, in either mode, decrypt to the
   text it was given, whichever way the two operations come by their common key.
   */
  lemma DecryptsWhatWasEncrypted(p: Prims, a: Args, text: seq<byte>, tag: seq<byte>, e: Env,
                                 back: Args, text': seq<byte>, e': Env)
    requires Sized(p) && Inverse(p)
    requires a.encrypt && AesOp(p, a, text, tag, e).code == Success
    requires !back.encrypt && back.noPadding && back.key != []
    requires back.mode == a.mode && back.iv == a.iv && back.aad == a.aad
    requires back.textIn == AesOp(p, a, text, tag, e).text && back.tagIn == AesOp(p, a, text, tag, e).tag
    requires Resolve(back, e') == Resolve(a, e) && e'.fails == {} && |text'| == |text|
    ensures AesOp(p, back, text', [], e') == Answer(Success, a.textIn, [])
  {
    var key := Resolve(a, e).key;
    if a.mode.CbcMode? {
      DecryptEncrypt(p, key, a.iv, a.textIn);
    } else {
      XorSeqCancels(a.textIn, p.keystream(key, a.iv, |a.textIn|));
    }
    assert Output(p, back, key) == a.textIn;
  }

  /**
   Authenticated decryption: success exactly when the presented tag begins the right
   one. Either way the decrypted text has been written to the output.
   */
  lemma TagDecides(p: Prims, a: Args, text: seq<byte>, e: Env)
    requires Sized(p) && e.fails == {} && a.mode.GcmMode? && !a.encrypt
    requires CheckBuffers(a, |text|) == Success && Resolve(a, e).Use? && IsAesKey(Resolve(a, e).key)
    requires Fits(a) && 1 <= |a.tagIn| <= BLOCK
    ensures var key := Resolve(a, e).key;
            AesOp(p, a, text, [], e) ==
            Answer(if a.tagIn == p.mac(key, a.iv, a.aad, a.textIn)[..|a.tagIn|] then Success else Generic,
                   XorSeq(a.textIn, p.keystream(key, a.iv, |a.textIn|)), [])
  {
  }

  // ----- what the output of a successful operation is

  /** In CBC mode, block by block: every block is chained to the ciphertext block before it. */
  lemma CbcOutputBlock(p: Prims, a: Args, text: seq<byte>, tag: seq<byte>, e: Env, i: nat)
    requires Sized(p) && a.mode.CbcMode? && AesOp(p, a, text, tag, e).code == Success && 16 * i + 16 <= |text|
    ensures |a.textIn| == |text| && |a.iv| == 16
    ensures var out, key := AesOp(p, a, text, tag, e).text, Resolve(a, e).key;
            && |out| == |text|
            && Block(out, i) ==
               if a.encrypt
               then p.enc(key, XorSeq(Block(a.textIn, i), if i == 0 then a.iv else Block(out, i - 1)))
               else XorSeq(p.dec(key, Block(a.textIn, i)), if i == 0 then a.iv else Block(a.textIn, i - 1))
  {
    var key := Resolve(a, e).key;
    assert AesOp(p, a, text, tag, e).text == Output(p, a, key);
    if a.encrypt {
      EncryptBlock(p, key, a.iv, a.textIn, i);
    } else {
      DecryptBlock(p, key, a.iv, a.textIn, i);
    }
  }

  /** In GCM mode: key stream and text, and in encryption the tag over additional data and ciphertext. */
  lemma GcmOutput(p: Prims, a: Args, text: seq<byte>, tag: seq<byte>, e: Env)
    requires Sized(p) && a.mode.GcmMode? && AesOp(p, a, text, tag, e).code == Success
    ensures var r, key := AesOp(p, a, text, tag, e), Resolve(a, e).key;
            && r.text == XorSeq(a.textIn, p.keystream(key, a.iv, |a.textIn|))
            && (a.encrypt ==> 1 <= |tag| <= 16 && r.tag == p.mac(key, a.iv, a.aad, r.text)[..|tag|])
            && (!a.encrypt ==> r.tag == [])
  {
  }

  // ----- when a failed operation has written its output all the same

  /** The operation gets as far as producing its output. */
  predicate ReachesOutput(a: Args, room: nat, tagRoom: nat, e: Env) {
    && CheckBuffers(a, room) == Success
    && Resolve(a, e).Use? && CheckMode(a, Resolve(a, e).key, tagRoom) == Success
    && Fits(a)
    && InitAlg !in e.fails && InitKey !in e.fails && SetPadding !in e.fails && FeedWorks(a, e.fails)
  }

  /** What can still go wrong then: the last call, the tag to be checked, the tag to be returned. */
  predicate FailsAfterOutput(p: Prims, a: Args, tagRoom: nat, e: Env)
    requires Sized(p) && Fits(a) && Resolve(a, e).Use?
  {
    || Final in e.fails
    || !TagAccepted(p, a, Resolve(a, e).key)
    || (tagRoom > 0 && (GetTag in e.fails || tagRoom > BLOCK))
  }

  /**
   A failed operation has changed its output buffer if and only if it reached the
   output, that differs from what was there, and something failed afterwards. The tag
   buffer is never changed by a failure.
   */
  lemma FailureWritesIff(p: Prims, a: Args, text: seq<byte>, tag: seq<byte>, e: Env)
    requires Sized(p)
    ensures var r := AesOp(p, a, text, tag, e);
            r.code != Success && r.text != text <==>
            && ReachesOutput(a, |text|, |tag|, e)
            && Output(p, a, Resolve(a, e).key) != text
            && FailsAfterOutput(p, a, |tag|, e)
    ensures var r := AesOp(p, a, text, tag, e);
            r.code != Success ==> r.tag == tag && (r.text != text ==> r.text == Output(p, a, Resolve(a, e).key))
  {
  }

  /** One such input: encryption with room for a tag of 17 bytes, with nothing failing underneath. */
  lemma LongTagBufferFailsAfterOutput(p: Prims, text: seq<byte>, maxHandle: nat)
    requires Sized(p) && |text| == 1
    ensures var a := Args(false, Zeros(16), GcmMode, true, true, Zeros(12), [0], [], []);
            AesOp(p, a, text, Zeros(17), Env(Denied, {}, maxHandle)) ==
            Answer(Generic, XorSeq([0], p.keystream(Zeros(16), Zeros(12), 1)), Zeros(17))
  {
  }

  // ----- a handle is as good as the key behind it

  /**
   Passing a handle answers like passing the key it stands for. The one exception is
   an empty key behind the handle when the mode is unknown too: the key given directly
   is then reported as missing before the mode is looked at.
   */
  lemma HandleIsTransparent(p: Prims, a: Args, text: seq<byte>, tag: seq<byte>, e: Env)
    requires Sized(p) && a.opaqueKey && Resolve(a, e).Use?
    ensures var k := Resolve(a, e).key;
            AesOp(p, a, text, tag, e) == AesOp(p, a.(opaqueKey := false, key := k), text, tag, e)
            <==> !(k == [] && a.mode.OtherMode? && CheckBuffers(a, |text|) == Success)
  {
    var k := Resolve(a, e).key;
    var plain := a.(opaqueKey := false, key := k);
    assert CheckMode(a, k, |tag|) == CheckMode(plain, k, |tag|);
    SameComputation(p, a, plain, k, text, tag, e.fails);
  }

  /** That exception at an input: no key behind the handle, and a mode that does not exist. */
  lemma EmptyKeyUnknownMode(p: Prims, text: seq<byte>)
    requires Sized(p) && |text| == 1
    ensures var a := Args(true, [0], OtherMode, true, true, [], [0], [], []);
            var e := Env(Key([]), {}, 1);
            && AesOp(p, a, text, [], e).code == NotImplemented
            && AesOp(p, a.(opaqueKey := false, key := []), text, [], e).code == InvalidArgs
  {
  }

  /** Once the key is known, how it was given no longer matters. */
  lemma SameComputation(p: Prims, a: Args, b: Args, key: seq<byte>, text: seq<byte>, tag: seq<byte>, fails: set<Call>)
    requires Sized(p) && b == a.(opaqueKey := b.opaqueKey, key := b.key)
    ensures Computed(p, a, key, text, tag, fails) == Computed(p, b, key, text, tag, fails)
  {
  }
}
