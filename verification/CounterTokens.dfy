/** What the token loop makes of the sample counter generator. */
module CounterTokens {
  import opened Bytes
  import opened CounterProvider
  import opened AccessToken

  /** The first byte the counter hands out, from offset `from` on, that is not zero. */
  function FirstNonZero(from: nat): (b: byte)
    ensures b != 0
  {
    if CounterStream()(from) == 0 then 1 else CounterStream()(from)
  }

  /** The byte `i` steps after `first`, counting up and going from 255 back to 1. */
  function CountUp(first: byte, i: nat): (b: byte)
    requires first != 0
    ensures b != 0
  {
    (1 + (first as int - 1 + i) % 255) as byte
  }

  /** The non-zero byte after `b`. */
  function Next(b: byte): byte {
    if b == 255 then 1 else b + 1
  }

  lemma CountUpStep(first: byte, i: nat)
    requires first != 0
    ensures CountUp(first, 0) == first
    ensures CountUp(first, i + 1) == CountUp(Next(first), i)
  {
    if first == 255 {
      assert (254 + (i + 1)) % 255 == i % 255;
    }
  }

  ghost predicate CountsUp(t: seq<byte>, first: byte)
    requires first != 0
  {
    forall i :: 0 <= i < |t| ==> t[i] == CountUp(first, i)
  }

  lemma CountsUpCons(first: byte, t: seq<byte>)
    requires first != 0 && CountsUp(t, Next(first))
    ensures CountsUp([first] + t, first)
  {
    forall i | 0 <= i < |t| + 1
      ensures ([first] + t)[i] == CountUp(first, i)
    {
      CountUpStep(first, if i == 0 then 0 else i - 1);
    }
  }

  lemma FirstNonZeroStep(from: nat)
    ensures FirstNonZero(from + 1) ==
            if CounterStream()(from) == 0 then FirstNonZero(from) else Next(CounterStream()(from))
  {
  }

  /** The non-zero bytes of a counter window count up from the first one. */
  lemma {:induction false} NonZeroBytesCountUp(from: nat, len: nat)
    ensures CountsUp(NonZero(Window(CounterStream(), from, len)), FirstNonZero(from))
    decreases len
  {
    if len > 0 {
      var w := Window(CounterStream(), from, len);
      assert w[1..] == Window(CounterStream(), from + 1, len - 1);
      NonZeroBytesCountUp(from + 1, len - 1);
      FirstNonZeroStep(from);
      if w[0] != 0 {
        CountsUpCons(w[0], NonZero(w[1..]));
      }
    }
  }

  /** With the counter the first draw is always good enough, wherever it starts and even across a wrap. */
  lemma FirstDrawIsAccepted(drawn: nat)
    ensures Accepted(Draw(CounterStream(), drawn, 0))
  {
    WindowSplit(CounterStream(), drawn, DRAW_SIZE, 256 - DRAW_SIZE);
    CountAppend(Window(CounterStream(), drawn, DRAW_SIZE),
                Window(CounterStream(), drawn + DRAW_SIZE, 256 - DRAW_SIZE), 0);
    WindowIsBalanced(drawn, 1, 0);
  }

  lemma TokenCountsUp(drawn: nat)
    ensures Accepted(Draw(CounterStream(), drawn, 0))
    ensures CountsUp(TokenOf(Draw(CounterStream(), drawn, 0))[..HANDLE_SIZE - 1], FirstNonZero(drawn))
  {
    FirstDrawIsAccepted(drawn);
    NonZeroBytesCountUp(drawn, DRAW_SIZE);
    assert Draw(CounterStream(), drawn, 0) == Window(CounterStream(), drawn, DRAW_SIZE);
  }

  /** Two tokens drawn from the counter are equal exactly when their first bytes are. */
  lemma TokensCollideIffFirstBytesAgree(drawn: nat, drawn': nat)
    ensures Accepted(Draw(CounterStream(), drawn, 0)) && Accepted(Draw(CounterStream(), drawn', 0))
    ensures TokenOf(Draw(CounterStream(), drawn, 0)) == TokenOf(Draw(CounterStream(), drawn', 0))
            <==> FirstNonZero(drawn) == FirstNonZero(drawn')
  {
    TokenCountsUp(drawn);
    TokenCountsUp(drawn');
    var token, token' := TokenOf(Draw(CounterStream(), drawn, 0)), TokenOf(Draw(CounterStream(), drawn', 0));
    CountUpStep(FirstNonZero(drawn), 0);
    CountUpStep(FirstNonZero(drawn'), 0);
    var text, text' := token[..HANDLE_SIZE - 1], token'[..HANDLE_SIZE - 1];
    assert token == text + [0] && token' == text' + [0];
    assert text[0] == FirstNonZero(drawn) && text'[0] == FirstNonZero(drawn');
  }
}
