/** Bytes, C strings and the `size_t` widths the services are built for. */
module Bytes {

  newtype byte = x: int | 0 <= x < 256

  datatype Option<+T> = None | Some(value: T)

  /** The two widths `size_t` has on the supported targets. */
  ghost predicate IsSizeModulus(modulus: nat) {
    modulus == 0x1_0000_0000 || modulus == 0x1_0000_0000_0000_0000
  }

  /** `n & 0xff` */
  function LowByte(n: nat): byte {
    (n % 256) as byte
  }

  function Zeros(n: nat): (s: seq<byte>)
    ensures |s| == n
  {
    seq(n, _ => 0)
  }

  /** The C string a buffer holds: everything before its first zero byte. */
  function CString(buffer: seq<byte>): (s: seq<byte>)
    ensures s <= buffer
    ensures 0 !in s
    ensures |s| < |buffer| ==> buffer[|s|] == 0
  {
    if buffer == [] || buffer[0] == 0 then
      []
    else
      [buffer[0]] + CString(buffer[1..])
  }

  lemma {:induction false} CStringIsUnique(buffer: seq<byte>, s: seq<byte>)
    requires s <= buffer && 0 !in s
    requires |s| < |buffer| ==> buffer[|s|] == 0
    ensures CString(buffer) == s
  {
    if s != [] {
      CStringIsUnique(buffer[1..], s[1..]);
    }
  }

  /** What follows a terminator in a buffer is not part of the string. */
  lemma CStringOfTerminated(text: seq<byte>, leftover: seq<byte>)
    ensures CString(text + [0] + leftover) == CString(text)
  {
    var s := CString(text);
    assert s <= text + [0] + leftover;
    CStringIsUnique(text + [0] + leftover, s);
  }

  /** `|{i | s[i] == b}|` */
  function Count(s: seq<byte>, b: byte): (n: nat)
    ensures n <= |s|
  {
    if s == [] then 0 else (if s[0] == b then 1 else 0) + Count(s[1..], b)
  }

  lemma {:induction false} CountAppend(s: seq<byte>, t: seq<byte>, b: byte)
    ensures Count(s + t, b) == Count(s, b) + Count(t, b)
  {
    if s == [] {
      assert s + t == t;
    } else {
      assert (s + t)[1..] == s[1..] + t;
      CountAppend(s[1..], t, b);
    }
  }
}
