/** Bytes, little-endian integers and the result types shared by the components. */
module Bytes {

  type byte = x: int | 0 <= x < 0x100

  const TWO32 := 0x1_0000_0000

  /** A 32-bit word as a signed machine integer. */
  function Signed32(v: int): (r: int)
    ensures -0x8000_0000 <= r < 0x8000_0000
    ensures (r - v) % TWO32 == 0
  {
    var w := v % TWO32;
    if w < 0x8000_0000 then w else w - TWO32
  }

  /** The `n` lowest bytes of `v`, least significant first. */
  function LowBytes(v: int, n: nat): (b: seq<byte>)
    ensures |b| == n
    decreases n
  {
    if n == 0 then [] else [v % 0x100] + LowBytes(v / 0x100, n - 1)
  }

  /** The four bytes of `v` modulo 2^32. */
  function ToLE32(v: int): (b: seq<byte>)
    ensures |b| == 4
  {
    LowBytes(v, 4)
  }

  function FromLE32(b: seq<byte>): (v: int)
    requires |b| == 4
    ensures 0 <= v < TWO32
  {
    b[0] as int + 0x100 * (b[1] as int) + 0x1_0000 * (b[2] as int) + 0x100_0000 * (b[3] as int)
  }

  /** Writing a 32-bit word and reading it back gives the word, for every integer. */
  lemma LE32RoundTrip(v: int)
    ensures FromLE32(ToLE32(v)) == v % TWO32
  {
    var a := v / 0x100;
    var b := a / 0x100;
    var c := b / 0x100;
    assert LowBytes(c, 1) == [c % 0x100];
    assert LowBytes(b, 2) == [b % 0x100, c % 0x100];
    assert LowBytes(a, 3) == [a % 0x100, b % 0x100, c % 0x100];
    assert ToLE32(v) == [v % 0x100, a % 0x100, b % 0x100, c % 0x100];
  }

  lemma SignedLE32RoundTrip(v: int)
    requires -0x8000_0000 <= v < 0x8000_0000
    ensures Signed32(FromLE32(ToLE32(v))) == v
  {
    LE32RoundTrip(v);
  }

  datatype Option<+T> = None | Some(value: T)

  function Min(a: int, b: int): int {
    if a <= b then a else b
  }

  function Max(a: int, b: int): int {
    if a <= b then b else a
  }

  lemma Regroup<T>(a: seq<T>, b: seq<T>, c: seq<T>)
    ensures (a + b) + c == a + (b + c)
  {
  }

  /** The pieces of a stream put together again. */
  function Joined(chunks: seq<seq<byte>>): seq<byte> {
    if chunks == [] then [] else chunks[0] + Joined(chunks[1..])
  }
}
