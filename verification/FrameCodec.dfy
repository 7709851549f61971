/** The TCP frame writer: magic, tagged little-endian length, payload. */
module FrameCodec {
  import opened Bytes

  const MAGIC_LOW: byte := 0x13
  const MAGIC_HIGH: byte := 0x57

  /** The width of the length field the writer chooses. */
  function Tag(len: nat): (t: nat)
    ensures t == 1 || t == 2 || t == 4
  {
    if len <= 0x7F then 1 else if len <= 0x7FFF then 2 else 4
  }

  function LengthField(len: nat): (b: seq<byte>)
    ensures |b| == 1 + Tag(len)
  {
    [Tag(len)] + LowBytes(len, Tag(len))
  }

  function Wrapped(payload: seq<byte>): (w: seq<byte>)
    ensures |w| == 3 + Tag(|payload|) + |payload|
  {
    [MAGIC_LOW, MAGIC_HIGH] + LengthField(|payload|) + payload
  }

  /** The bytes as a little-endian number. */
  function FromLE(b: seq<byte>): nat {
    if b == [] then 0 else b[0] as nat + 0x100 * FromLE(b[1..])
  }

  /** What the reader computes from a length field: every width but 1 and 2 reads four bytes. */
  function ReadLengthLe(p: seq<byte>, width: nat): nat
    requires |p| >= (if width == 1 then 1 else if width == 2 then 2 else 4)
  {
    if width == 1 then p[0]
    else if width == 2 then p[0] as nat + 0x100 * (p[1] as nat)
    else FromLE32(p[..4])
  }

  /** That is the little-endian number of as many bytes as the width says. */
  lemma ReadLengthIsLittleEndian(p: seq<byte>, width: nat)
    requires width == 1 || width == 2 || width == 4
    requires |p| >= width
    ensures ReadLengthLe(p, width) == FromLE(p[..width])
  {
    FromLEUnrolled(p[..width]);
  }

  lemma FromLEUnrolled(b: seq<byte>)
    requires |b| == 1 || |b| == 2 || |b| == 4
    ensures |b| == 1 ==> FromLE(b) == b[0]
    ensures |b| == 2 ==> FromLE(b) == b[0] as nat + 0x100 * (b[1] as nat)
    ensures |b| == 4 ==> FromLE(b) == FromLE32(b)
  {
    if |b| == 1 {
      assert FromLE(b[1..]) == 0;
    } else {
      assert b[1..][1..] == b[2..];
      assert FromLE(b) == b[0] as nat + 0x100 * (b[1] as nat + 0x100 * FromLE(b[2..]));
      if |b| == 4 {
        assert b[2..][1..] == b[3..] && b[3..][1..] == [];
        assert FromLE(b[2..]) == b[2] as nat + 0x100 * (b[3] as nat + 0x100 * FromLE([]));
      }
    }
  }

  function Power256(n: nat): (p: nat)
    ensures p > 0
  {
    if n == 0 then 1 else 0x100 * Power256(n - 1)
  }

  /** Low bytes read back as the number modulo the width. */
  lemma {:induction false} LowBytesReadBack(v: nat, n: nat)
    ensures FromLE(LowBytes(v, n)) == v % Power256(n)
    decreases n
  {
    if n > 0 {
      LowBytesReadBack(v / 0x100, n - 1);
      var p := Power256(n - 1);
      assert LowBytes(v, n)[1..] == LowBytes(v / 0x100, n - 1);
      SplitModulo(v, p);
    }
  }

  lemma SplitModulo(v: nat, p: nat)
    requires p > 0
    ensures v % (0x100 * p) == v % 0x100 + 0x100 * ((v / 0x100) % p)
  {
    var h := v / 0x100;
    var q, r := h / p, h % p;
    var low := v % 0x100 + 0x100 * r;
    assert h == p * q + r;
    assert v == (0x100 * p) * q + low by {
      assert 0x100 * (p * q) == (0x100 * p) * q;
    }
    assert 0 <= low < 0x100 * p;
    ModuloUnique(v, 0x100 * p, q, low);
  }

  lemma ModuloUnique(v: nat, m: nat, q: nat, r: nat)
    requires v == m * q + r && r < m
    ensures v % m == r
  {
    var d := v / m - q;
    assert v == m * (v / m) + v % m;
    assert m * d == r - v % m;
  }

  /** The reader recovers the length exactly when it fits 32 bits. */
  lemma LengthRoundTripIff(len: nat)
    ensures ReadLengthLe(LengthField(len)[1..], Tag(len)) == len <==> len < TWO32
  {
    var t := Tag(len);
    assert LengthField(len)[1..] == LowBytes(len, t);
    assert LowBytes(len, t)[..t] == LowBytes(len, t);
    LowBytesReadBack(len, t);
    ReadLengthIsLittleEndian(LowBytes(len, t), t);
    assert Power256(1) == 0x100 && Power256(2) == 0x1_0000;
    assert Power256(4) == 0x1_0000 * Power256(2);
  }

  /**
   * The width is the least of 1, 2 and 4 bytes in which the length is no negative number to a reader of
   * signed integers; 4 if there is none.
   */
  lemma TagIsLeast(len: nat)
    ensures Tag(len) < 4 ==> 2 * len < Power256(Tag(len))
    ensures forall w :: w in {1, 2} && w < Tag(len) ==> 2 * len >= Power256(w)
  {
    assert Power256(1) == 0x100 * Power256(0) && Power256(2) == 0x100 * Power256(1);
  }

  /** Byte by byte: 13 57, the width, the length in that many bytes, the payload. */
  lemma WrappedLayout(payload: seq<byte>)
    ensures var w, t := Wrapped(payload), Tag(|payload|);
            && w[0] == 0x13 && w[1] == 0x57 && w[2] == t
            && FromLE(w[3..3 + t]) == |payload| % Power256(t)
            && w[3 + t..] == payload
  {
    var w, t := Wrapped(payload), Tag(|payload|);
    LowBytesReadBack(|payload|, t);
    assert w[3..3 + t] == LowBytes(|payload|, t);
  }

  method EncodeLength(len: nat) returns (out: seq<byte>)
    ensures out == LengthField(len)
  {
    out := [];
    if len + 128 <= 0xFF {
      out := out + [1];
      out := out + [len % 0x100];
      assert LowBytes(len, 1) == [len % 0x100] + LowBytes(len / 0x100, 0);
    } else if len + 0x8000 <= 0xFFFF {
      out := out + [2];
      out := out + [len % 0x100];
      out := out + [len / 0x100 % 0x100];
      assert LowBytes(len, 2) == [len % 0x100] + LowBytes(len / 0x100, 1);
      assert LowBytes(len / 0x100, 1) == [len / 0x100 % 0x100] + LowBytes(len / 0x1_0000, 0);
    } else {
      out := out + [4];
      out := out + [len % 0x100];
      out := out + [len / 0x100 % 0x100];
      out := out + [len / 0x1_0000 % 0x100];
      out := out + [len / 0x100_0000 % 0x100];
      var a, b, c := len / 0x100, len / 0x1_0000, len / 0x100_0000;
      assert b == a / 0x100 && c == b / 0x100;
      assert LowBytes(c, 1) == [c % 0x100];
      assert LowBytes(b, 2) == [b % 0x100] + LowBytes(c, 1);
      assert LowBytes(a, 3) == [a % 0x100] + LowBytes(b, 2);
    }
  }

  method Wrap(payload: seq<byte>) returns (frame: seq<byte>)
    ensures frame == Wrapped(payload)
  {
    frame := [MAGIC_LOW];
    frame := frame + [MAGIC_HIGH];
    var length := EncodeLength(|payload|);
    frame := frame + length;
    frame := frame + payload;
  }
}
