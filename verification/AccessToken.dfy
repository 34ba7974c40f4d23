/**
 Access tokens: 31 random bytes, none of them zero, and a terminator. They are
 picked out of 34-byte draws, throwing a draw away when it holds too many zeros.
 */
module AccessToken {
  import opened Bytes
  import opened CounterProvider

  const HANDLE_SIZE: nat := 32
  const DRAW_SIZE: nat := 34

  /** The bytes of `s` that are not zero, in order. */
  function NonZero(s: seq<byte>): (t: seq<byte>)
    ensures 0 !in t
    ensures |t| + Count(s, 0) == |s|
  {
    if s == [] then [] else (if s[0] == 0 then [] else [s[0]]) + NonZero(s[1..])
  }

  lemma {:induction false} NonZeroAppend(s: seq<byte>, t: seq<byte>)
    ensures NonZero(s + t) == NonZero(s) + NonZero(t)
  {
    if s == [] {
      assert s + t == t;
    } else {
      assert (s + t)[1..] == s[1..] + t;
      NonZeroAppend(s[1..], t);
    }
  }

  ghost predicate ValidToken(token: seq<byte>) {
    && |token| == HANDLE_SIZE
    && token[HANDLE_SIZE - 1] == 0
    && forall i :: 0 <= i < HANDLE_SIZE - 1 ==> token[i] != 0
  }

  /** A draw yields a token exactly when at most three of its bytes are zero. */
  predicate Accepted(draw: seq<byte>)
    requires |draw| == DRAW_SIZE
  {
    Count(draw, 0) <= 3
  }

  function TokenOf(draw: seq<byte>): (token: seq<byte>)
    requires |draw| == DRAW_SIZE && Accepted(draw)
    ensures ValidToken(token)
    ensures |token| == 32 && token[..31] <= NonZero(draw)
  {
    var token := NonZero(draw)[..HANDLE_SIZE - 1] + [0];
    assert forall i :: 0 <= i < HANDLE_SIZE - 1 ==> token[i] in NonZero(draw);
    token
  }

  /** As a C string, a token is its first 31 bytes. */
  lemma TokenAsCString(token: seq<byte>)
    requires ValidToken(token)
    ensures CString(token) == token[..HANDLE_SIZE - 1]
  {
    CStringIsUnique(token, token[..HANDLE_SIZE - 1]);
  }

  /**
   Comparing 32 raw bytes of a request buffer against a token is comparing C
   strings: what the buffer holds after its terminator plays no part.
   */
  lemma RawComparisonIsStringComparison(token: seq<byte>, buffer: seq<byte>)
    requires ValidToken(token)
    requires |buffer| >= HANDLE_SIZE
    ensures token == buffer[..HANDLE_SIZE] <==> CString(buffer) == token[..HANDLE_SIZE - 1]
  {
    var text, front := token[..HANDLE_SIZE - 1], buffer[..HANDLE_SIZE - 1];
    var last := buffer[HANDLE_SIZE - 1];
    assert buffer[..HANDLE_SIZE] == front + [last];
    TokenIs(token, front, last);
    if text == front && last == 0 {
      CStringIsUnique(buffer, text);
    }
    assert CString(buffer) == text ==> text == buffer[..|text|] && buffer[|text|] == 0;
  }

  lemma TokenIs(token: seq<byte>, front: seq<byte>, last: byte)
    requires |token| == HANDLE_SIZE && token[HANDLE_SIZE - 1] == 0 && |front| == HANDLE_SIZE - 1
    ensures token == front + [last] <==> token[..HANDLE_SIZE - 1] == front && last == 0
  {
    assert token == token[..HANDLE_SIZE - 1] + [0];
  }

  /** The outcome of one run of the drawing loop: some rejected draws, then the one that ended it. */
  datatype DrawScript = DrawScript(rejected: nat, ok: bool)

  ghost predicate Terminates(stream: nat -> byte, drawn: nat, script: DrawScript) {
    && (forall q :: 0 <= q < script.rejected ==> !Accepted(Draw(stream, drawn, q)))
    && (script.ok ==> Accepted(Draw(stream, drawn, script.rejected)))
  }

  function Draw(stream: nat -> byte, drawn: nat, pass: nat): (draw: seq<byte>)
    ensures |draw| == 34
  {
    Window(stream, drawn + DRAW_SIZE * pass, DRAW_SIZE)
  }

  function BytesUsed(script: DrawScript): nat {
    DRAW_SIZE * (script.rejected + if script.ok then 1 else 0)
  }

  lemma NonZeroSnoc(s: seq<byte>, b: byte)
    ensures NonZero(s + [b]) == NonZero(s) + if b == 0 then [] else [b]
  {
    NonZeroAppend(s, [b]);
  }

  /** Where the pass stops, with `offset` bytes collected out of the first `i`. */
  lemma PassStops(draw: seq<byte>, i: nat, offset: nat)
    requires |draw| == DRAW_SIZE && i <= DRAW_SIZE && offset == |NonZero(draw[..i])| <= HANDLE_SIZE - 1
    requires i == DRAW_SIZE || offset == HANDLE_SIZE - 1
    ensures offset == if Accepted(draw) then HANDLE_SIZE - 1 else |NonZero(draw)|
    ensures offset <= |NonZero(draw)| && NonZero(draw[..i]) == NonZero(draw)[..offset]
  {
    NonZeroAppend(draw[..i], draw[i..]);
    assert draw == draw[..i] + draw[i..];
  }

  /** One pass over a draw: copies its non-zero bytes to the front of `token` until 31 are there. */
  method CollectNonZero(draw: array<byte>, token: array<byte>) returns (offset: nat)
    requires draw.Length == DRAW_SIZE && token.Length == HANDLE_SIZE && draw != token
    modifies token
    ensures offset == if Accepted(draw[..]) then HANDLE_SIZE - 1 else |NonZero(draw[..])|
    ensures offset <= |NonZero(draw[..])| && token[..offset] == NonZero(draw[..])[..offset]
    ensures token[offset..] == old(token[offset..])
  {
    offset := 0;
    var i := 0;
    while i < DRAW_SIZE && offset < HANDLE_SIZE - 1
      invariant 0 <= i <= DRAW_SIZE && 0 <= offset <= HANDLE_SIZE - 1
      invariant token[..offset] == NonZero(draw[..i])
      invariant forall k :: offset <= k < HANDLE_SIZE ==> token[k] == old(token[k])
    {
      NonZeroSnoc(draw[..i], draw[i]);
      assert draw[..i + 1] == draw[..i] + [draw[i]];
      if draw[i] != 0 {
        token[offset] := draw[i];
        assert token[..offset + 1] == token[..offset] + [draw[i]];
        offset := offset + 1;
      }
      i := i + 1;
    }
    assert draw[..][..i] == draw[..i];
    PassStops(draw[..], i, offset);
  }

  /**
   Fills a zeroed token. Nothing a rejected draw wrote survives: the result is
   the token of the accepted draw alone.
   */
  method GenerateToken(rng: Device, token: array<byte>, script: DrawScript) returns (ok: bool)
    requires token.Length == HANDLE_SIZE && token[HANDLE_SIZE - 1] == 0
    requires Terminates(rng.stream, rng.drawn, script)
    modifies rng, token
    ensures ok == script.ok && rng.drawn == old(rng.drawn) + BytesUsed(script)
    ensures ok ==> token[..] == TokenOf(Draw(rng.stream, old(rng.drawn), script.rejected))
  {
    var randomBuf := new byte[DRAW_SIZE];
    var pass := 0;
    while true
      invariant 0 <= pass <= script.rejected
      invariant rng.drawn == old(rng.drawn) + DRAW_SIZE * pass
      invariant token[HANDLE_SIZE - 1] == 0
      decreases script.rejected - pass
    {
      var rngOk := pass < script.rejected || script.ok;
      rng.GetRngData(randomBuf, DRAW_SIZE, rngOk);
      if !rngOk {
        return false;
      }
      assert randomBuf[..] == Draw(rng.stream, old(rng.drawn), pass);
      var offset := CollectNonZero(randomBuf, token);
      assert token[HANDLE_SIZE - 1] == token[offset..][HANDLE_SIZE - 1 - offset];
      if offset == HANDLE_SIZE - 1 {
        break;
      }
      pass := pass + 1;
    }
    assert token[..] == token[..HANDLE_SIZE - 1] + [token[HANDLE_SIZE - 1]];
    return true;
  }
}
