/**
 The sample random generator: a `size_t` counter whose low byte is handed out and
 which wraps around silently. Services draw from it one window at a time.
 */
module CounterProvider {
  import opened Bytes

  /** `len` consecutive bytes of a generator's output, `from` bytes after it started. */
  function Window(stream: nat -> byte, from: nat, len: nat): (w: seq<byte>)
    ensures |w| == len
    ensures forall i :: 0 <= i < len ==> w[i] == stream(from + i)
  {
    seq(len, i requires 0 <= i < len => stream(from + i))
  }

  /** Output of the counter, which starts at 1, if it never wrapped. */
  function CounterStream(): nat -> byte {
    (n: nat) => LowByte(1 + n)
  }

  /**
   A random device as the services see it: a stream of bytes drawn in order by
   everyone, where any draw may fail instead. `ok` is the outcome of that draw.
   */
  class Device {
    const stream: nat -> byte
    var drawn: nat

    constructor (stream: nat -> byte)
      ensures this.stream == stream && drawn == 0
    {
      this.stream, drawn := stream, 0;
    }

    method GetRngData(buffer: array<byte>, len: nat, ok: bool)
      requires len <= buffer.Length
      modifies this, buffer
      ensures ok ==> drawn == old(drawn) + len && buffer[..len] == Window(stream, old(drawn), len)
      ensures !ok ==> drawn == old(drawn)
    {
      if ok {
        forall i | 0 <= i < len {
          buffer[i] := stream(drawn + i);
        }
        drawn := drawn + len;
      }
    }
  }

  class Counter {
    const modulus: nat
    var counter: nat

    /** How many bytes have been handed out since start-up. */
    ghost var drawn: nat

    ghost predicate Valid()
      reads this
    {
      && IsSizeModulus(modulus)
      && counter == (1 + drawn) % modulus
    }

    constructor (modulus: nat)
      requires IsSizeModulus(modulus)
      ensures Valid() && drawn == 0 && counter == 1 && this.modulus == modulus
    {
      this.modulus := modulus;
      counter, drawn := 1, 0;
    }

    method GetRngData(buffer: array<byte>, len: nat)
      requires Valid() && len <= buffer.Length
      modifies this, buffer
      ensures Valid() && drawn == old(drawn) + len
      ensures buffer[..len] == Window(CounterStream(), old(drawn), len)
      ensures buffer[len..] == old(buffer[len..])
    {
      var i := 0;
      while i < len
        invariant 0 <= i <= len
        invariant Valid() && drawn == old(drawn) + i
        invariant forall k :: 0 <= k < i ==> buffer[k] == CounterStream()(old(drawn) + k)
        invariant buffer[len..] == old(buffer[len..])
      {
        WrapKeepsLowByte(1 + drawn, modulus);
        buffer[i] := LowByte(counter);
        WrapStep(1 + drawn, modulus);
        counter := (counter + 1) % modulus;
        drawn := drawn + 1;
        i := i + 1;
      }
    }
  }

  lemma WrapKeepsLowByte(n: nat, modulus: nat)
    requires IsSizeModulus(modulus)
    ensures LowByte(n % modulus) == LowByte(n)
  {
    var q, r, m := n / modulus, n % modulus, modulus / 256;
    assert modulus == 256 * m;
    var t := m * q;
    calc {
      n;
      modulus * q + r;
      256 * m * q + r;
      256 * t + r;
    }
  }

  lemma WrapStep(n: nat, modulus: nat)
    requires IsSizeModulus(modulus)
    ensures (n % modulus + 1) % modulus == (n + 1) % modulus
  {
    var q, r := n / modulus, n % modulus;
    if r + 1 < modulus {
      DividesInto(n + 1, modulus, q, r + 1);
    } else {
      DividesInto(n + 1, modulus, q + 1, 0);
    }
  }

  lemma DividesInto(n: nat, modulus: nat, q: nat, r: nat)
    requires IsSizeModulus(modulus) && r < modulus && n == modulus * q + r
    ensures n % modulus == r && r % modulus == r
  {
    if modulus == 0x1_0000_0000 {
      assert n == 0x1_0000_0000 * q + r;
    } else {
      assert n == 0x1_0000_0000_0000_0000 * q + r;
    }
  }

  // ----- every byte value is handed out equally often

  lemma WindowSplit(stream: nat -> byte, from: nat, m: nat, n: nat)
    ensures Window(stream, from, m + n) == Window(stream, from, m) + Window(stream, from + m, n)
  {
  }

  lemma CounterPeriod(i: nat)
    ensures CounterStream()(i + 256) == CounterStream()(i)
  {
  }

  /** Any run of `256 * k` counter values, wherever it starts, holds every byte value exactly `k` times. */
  lemma {:induction false} WindowIsBalanced(from: nat, k: nat, b: byte)
    ensures Count(Window(CounterStream(), from, 256 * k), b) == k
    decreases k
  {
    if k > 0 {
      WindowSplit(CounterStream(), from, 256, 256 * (k - 1));
      CountAppend(Window(CounterStream(), from, 256), Window(CounterStream(), from + 256, 256 * (k - 1)), b);
      WindowIsBalanced(from + 256, k - 1, b);
      PeriodIsBalanced(from, StepsTo(from, b), b);
    }
  }

  /** How far the counter is, at offset `from`, from handing out `b`. */
  ghost function StepsTo(from: nat, b: byte): (d: nat)
    ensures CounterStream()(from + d) == b
  {
    (b as int + 511 - from % 256) % 256
  }

  /** Sliding a 256-byte window by one drops a byte and picks up the same byte again. */
  lemma {:induction false} PeriodIsBalanced(from: nat, d: nat, b: byte)
    requires CounterStream()(from + d) == b
    ensures Count(Window(CounterStream(), from, 256), b) == 1
    decreases d
  {
    var w := Window(CounterStream(), from, 256);
    if d == 0 {
      forall i | 1 <= i < 256
        ensures w[i] != b
      {
      }
      CountAbsent(w[1..], b);
    } else {
      var next := Window(CounterStream(), from + 1, 256);
      CounterPeriod(from);
      PeriodIsBalanced(from + 1, d - 1, b);
      assert w == [w[0]] + w[1..];
      assert next == w[1..] + [w[0]];
      CountAppend([w[0]], w[1..], b);
      CountAppend(w[1..], [w[0]], b);
    }
  }

  lemma {:induction false} CountAbsent(s: seq<byte>, b: byte)
    requires b !in s
    ensures Count(s, b) == 0
  {
    if s != [] {
      CountAbsent(s[1..], b);
    }
  }
}
