/** Bytes, big-endian 16-bit fields, ASCII case and the optional value used by all modules. */
module Bytes {

  datatype Option<+T> = None | Some(value: T)

  type Byte = b: int | 0 <= b < 0x100
  type U16 = n: int | 0 <= n < 0x1_0000
  type U32 = n: int | 0 <= n < TWO_32

  const TWO_31 := 0x8000_0000
  const TWO_32 := 0x1_0000_0000

  /** Big-endian 16-bit value stored at offset `o`. */
  function U16At(b: seq<Byte>, o: nat): U16
    requires o + 2 <= |b|
  {
    0x100 * (b[o] as int) + b[o + 1] as int
  }

  /** The two low bytes of `n`, most significant first. */
  function U16Bytes(n: nat): (s: seq<Byte>)
    ensures |s| == 2
  {
    [n / 0x100 % 0x100, n % 0x100]
  }

  /** `x` modulo 2^32: what an unsigned 32-bit register holds after computing `x`. */
  function Wrap(x: int): U32 {
    x % TWO_32
  }

  function LowerByte(b: Byte): Byte {
    if 'A' as int <= b <= 'Z' as int then b + 32 else b
  }

  function Lower(s: seq<Byte>): (t: seq<Byte>)
    ensures |t| == |s|
  {
    seq(|s|, i requires 0 <= i < |s| => LowerByte(s[i]))
  }

  function Min(a: int, b: int): int {
    if a < b then a else b
  }

  /** Two concatenated pieces found at offset `o` of `b` sit at the offsets their lengths say. */
  lemma SliceSplit<T>(b: seq<T>, o: nat, end: nat, x: seq<T>, y: seq<T>)
    requires o <= end <= |b|
    requires b[o..end] == x + y
    ensures o + |x| <= end
    ensures b[o..o + |x|] == x
    ensures b[o + |x|..end] == y
  {
    assert |x| + |y| == end - o;
    forall i | 0 <= i < |x| ensures b[o + i] == x[i] {
      assert b[o..end][i] == (x + y)[i];
    }
    forall i | 0 <= i < |y| ensures b[o + |x| + i] == y[i] {
      assert b[o..end][|x| + i] == (x + y)[|x| + i];
    }
  }

  /** The C string in a buffer: the bytes before its first NUL. */
  function UpToNul(s: seq<Byte>): seq<Byte> {
    if s == [] || s[0] == 0 then [] else [s[0]] + UpToNul(s[1..])
  }

  lemma {:induction false} UpToNulIs(s: seq<Byte>, n: nat)
    requires n < |s| && s[n] == 0 && forall i | 0 <= i < n :: s[i] != 0
    ensures UpToNul(s) == s[..n]
    decreases n
  {
    if n > 0 {
      UpToNulIs(s[1..], n - 1);
      assert s[..n] == [s[0]] + s[1..][..n - 1];
    }
  }

  /** A terminated buffer reads as the text stored in it, up to that text's own first NUL. */
  lemma {:induction false} TerminatedText(buffer: seq<Byte>, text: seq<Byte>)
    requires |text| < |buffer| && buffer[..|text|] == text && buffer[|text|] == 0
    ensures UpToNul(buffer) == UpToNul(text)
    decreases |text|
  {
    if text != [] {
      assert buffer[0] == text[0];
      assert buffer[1..][..|text| - 1] == text[1..];
      TerminatedText(buffer[1..], text[1..]);
    }
  }
}
