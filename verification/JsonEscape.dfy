/** Escaping a C string into a bounded buffer, as the body of a JSON string. */
module JsonEscape {
  import opened Bytes

  const QUOTE: byte := 0x22
  const BACKSLASH: byte := 0x5C
  const LETTER_N: byte := 0x6E
  const LETTER_R: byte := 0x72
  const LETTER_T: byte := 0x74
  const LETTER_U: byte := 0x75
  const ZERO: byte := 0x30

  function HexDigit(v: nat): (h: byte)
    requires v < 16
  {
    if v < 10 then ZERO + v else 0x61 + v - 10
  }

  /** The escape of one byte. */
  function Escaped(c: byte): (e: seq<byte>)
    ensures |e| == 1 || |e| == 2 || |e| == 6
  {
    if c == QUOTE || c == BACKSLASH then [BACKSLASH, c]
    else if c == 0x0A then [BACKSLASH, LETTER_N]
    else if c == 0x0D then [BACKSLASH, LETTER_R]
    else if c == 0x09 then [BACKSLASH, LETTER_T]
    else if c < 0x20 then [BACKSLASH, LETTER_U, ZERO, ZERO, HexDigit(c / 16), HexDigit(c % 16)]
    else [c]
  }

  function EscapedAll(s: seq<byte>): seq<byte> {
    if s == [] then [] else Escaped(s[0]) + EscapedAll(s[1..])
  }

  lemma {:induction false} EscapedConcat(a: seq<byte>, b: seq<byte>)
    ensures EscapedAll(a + b) == EscapedAll(a) + EscapedAll(b)
  {
    if a == [] {
      assert a + b == b;
    } else {
      assert (a + b)[0] == a[0] && (a + b)[1..] == a[1..] + b;
      EscapedConcat(a[1..], b);
    }
  }

  // ---- Reading it back, as section 7 of RFC 8259 has it ----

  function HexValue(h: byte): (v: Option<nat>)
    ensures v.Some? ==> v.value < 16
  {
    if 0x30 <= h <= 0x39 then Some(h - 0x30)
    else if 0x41 <= h <= 0x46 then Some(h - 0x41 + 10)
    else if 0x61 <= h <= 0x66 then Some(h - 0x61 + 10)
    else None
  }

  /** The first character of a string body: its code unit and its length. None when it is not legal. */
  function FirstChar(t: seq<byte>): (r: Option<(nat, nat)>)
    ensures r.Some? ==> 0 < r.value.1 <= |t|
  {
    if t == [] || t[0] < 0x20 || t[0] == QUOTE then None
    else if t[0] != BACKSLASH then Some((t[0], 1))
    else if |t| < 2 then None
    else if t[1] == QUOTE || t[1] == BACKSLASH || t[1] == 0x2F then Some((t[1], 2))
    else if t[1] == 0x62 then Some((0x08, 2))
    else if t[1] == 0x66 then Some((0x0C, 2))
    else if t[1] == LETTER_N then Some((0x0A, 2))
    else if t[1] == LETTER_R then Some((0x0D, 2))
    else if t[1] == LETTER_T then Some((0x09, 2))
    else if t[1] != LETTER_U || |t| < 6 then None
    else
      match (HexValue(t[2]), HexValue(t[3]), HexValue(t[4]), HexValue(t[5]))
      case (Some(a), Some(b), Some(c), Some(d)) => Some((0x1000 * a + 0x100 * b + 0x10 * c + d, 6))
      case _ => None
  }

  /** The code units of a legal string body; None for a body no JSON reader accepts. */
  function Unescaped(t: seq<byte>): Option<seq<nat>>
    decreases |t|
  {
    if t == [] then Some([])
    else
      match FirstChar(t)
      case None => None
      case Some((unit, n)) =>
        match Unescaped(t[n..])
        case None => None
        case Some(rest) => Some([unit] + rest)
  }

  function Units(s: seq<byte>): seq<nat> {
    seq(|s|, i requires 0 <= i < |s| => s[i])
  }

  lemma FirstCharOfEscape(c: byte, rest: seq<byte>)
    requires c != 0
    ensures FirstChar(Escaped(c) + rest) == Some((c as nat, |Escaped(c)|))
  {
    var t := Escaped(c) + rest;
    assert t[..|Escaped(c)|] == Escaped(c);
    if |Escaped(c)| == 6 {
      assert t[2] == ZERO && t[3] == ZERO && t[4] == HexDigit(c / 16) && t[5] == HexDigit(c % 16);
    }
  }

  /** The escape of any NUL-free string is a legal body and reads back as the string. */
  lemma {:induction false} EscapeReadsBack(s: seq<byte>)
    requires 0 !in s
    ensures Unescaped(EscapedAll(s)) == Some(Units(s))
  {
    if s == [] {
      assert Units(s) == [];
    } else {
      FirstCharOfEscape(s[0], EscapedAll(s[1..]));
      EscapeReadsBack(s[1..]);
      var t := EscapedAll(s);
      assert t[|Escaped(s[0])|..] == EscapedAll(s[1..]);
      assert Units(s) == [s[0] as nat] + Units(s[1..]);
    }
  }

  const HEX: seq<byte> := [0x30, 0x31, 0x32, 0x33, 0x34, 0x35, 0x36, 0x37,
                           0x38, 0x39, 0x61, 0x62, 0x63, 0x64, 0x65, 0x66]

  /** In bytes: a backslash before quote, backslash, n, r and t; \u00 and two digits; or the byte itself. */
  lemma EscapeTable(c: byte)
    ensures c == 0x22 || c == 0x5C ==> Escaped(c) == [0x5C, c]
    ensures c == 0x0A ==> Escaped(c) == [0x5C, 0x6E]
    ensures c == 0x0D ==> Escaped(c) == [0x5C, 0x72]
    ensures c == 0x09 ==> Escaped(c) == [0x5C, 0x74]
    ensures c < 0x20 && c != 0x09 && c != 0x0A && c != 0x0D ==>
              Escaped(c) == [0x5C, 0x75, 0x30, 0x30, HEX[c / 16], HEX[c % 16]]
    ensures c >= 0x20 && c != 0x22 && c != 0x5C ==> Escaped(c) == [c]
  {
  }

  /** Legal ways to write this code unit first in a string body are never shorter than its escape. */
  ghost predicate Shortest(c: byte) {
    forall t: seq<byte> :: FirstChar(t).Some? && FirstChar(t).value.0 == c ==> FirstChar(t).value.1 >= |Escaped(c)|
  }

  /** Escapes are as short as section 7 of RFC 8259 allows, except for backspace and form feed. */
  lemma ShortestIff(c: byte)
    requires c != 0
    ensures Shortest(c) <==> c != 8 && c != 12
    ensures forall e <- Escaped(c) :: |Escaped(c)| == 6 ==> !(0x41 <= e <= 0x5A)  // hexadecimal in lower case
  {
    if c == 8 || c == 12 {
      var t: seq<byte> := [BACKSLASH, if c == 8 then 0x62 else 0x66];
      assert FirstChar(t) == Some((c as nat, 2));
    }
  }

  /** A longer source never has a shorter escape. */
  lemma {:induction false} EscapeGrows(s: seq<byte>, k: nat, m: nat)
    requires k <= m <= |s|
    ensures |EscapedAll(s[..k])| + (m - k) <= |EscapedAll(s[..m])|
    decreases m - k
  {
    if k < m {
      OneMore(s, k);
      EscapeGrows(s, k + 1, m);
    }
  }

  lemma OneMore(s: seq<byte>, k: nat)
    requires k < |s|
    ensures EscapedAll(s[..k + 1]) == EscapedAll(s[..k]) + Escaped(s[k])
  {
    assert s[..k + 1] == s[..k] + [s[k]];
    EscapedConcat(s[..k], [s[k]]);
    assert EscapedAll([s[k]]) == Escaped(s[k]) + EscapedAll([]);
  }

  /** `k` bytes of the source fit a buffer of `size` bytes with its terminator, and no more do. */
  ghost predicate LongestFit(s: seq<byte>, k: nat, size: nat) {
    && k <= |s|
    && |EscapedAll(s[..k])| < size
    && forall m: nat :: k < m <= |s| ==> |EscapedAll(s[..m])| >= size
  }

  lemma NextDoesNotFit(s: seq<byte>, k: nat, size: nat)
    requires k <= |s| && |EscapedAll(s[..k])| < size
    requires k < |s| ==> |EscapedAll(s[..k])| + |Escaped(s[k])| >= size
    ensures LongestFit(s, k, size)
  {
    forall m: nat | k < m <= |s|
      ensures |EscapedAll(s[..m])| >= size
    {
      OneMore(s, k);
      EscapeGrows(s, k + 1, m);
    }
  }

  /** One turn of the loop: writes the whole escape of `c`, or nothing when it does not fit. */
  method PutEscape(dst: array<byte>, dstSize: nat, pos: nat, c: byte) returns (n: nat)
    requires pos + 1 < dstSize <= dst.Length && c != 0
    modifies dst
    ensures n == if pos + |Escaped(c)| < dstSize then |Escaped(c)| else 0
    ensures dst[..pos + n] == old(dst[..pos]) + (if n == 0 then [] else Escaped(c))
    ensures forall i :: pos + n < i < dst.Length ==> dst[i] == old(dst[i])
  {
    if c == QUOTE || c == BACKSLASH {
      n := PutPair(dst, dstSize, pos, c);
    } else if c == 0x0A {
      n := PutPair(dst, dstSize, pos, LETTER_N);
    } else if c == 0x0D {
      n := PutPair(dst, dstSize, pos, LETTER_R);
    } else if c == 0x09 {
      n := PutPair(dst, dstSize, pos, LETTER_T);
    } else if c < 0x20 {
      n := PutUnicode(dst, dstSize, pos, c);
    } else {
      dst[pos] := c;
      n := 1;
    }
  }

  method PutPair(dst: array<byte>, dstSize: nat, pos: nat, letter: byte) returns (n: nat)
    requires pos < dstSize <= dst.Length
    modifies dst
    ensures n == if pos + 2 < dstSize then 2 else 0
    ensures dst[..pos + n] == old(dst[..pos]) + (if n == 0 then [] else [BACKSLASH, letter])
    ensures forall i :: pos + n <= i < dst.Length ==> dst[i] == old(dst[i])
  {
    if pos + 2 >= dstSize {
      return 0;
    }
    dst[pos], dst[pos + 1] := BACKSLASH, letter;
    return 2;
  }

  /** The formatted print of a control character, with the terminator it writes behind its six bytes. */
  method PutUnicode(dst: array<byte>, dstSize: nat, pos: nat, c: byte) returns (n: nat)
    requires pos < dstSize <= dst.Length && c < 0x20
    modifies dst
    ensures n == if pos + 6 < dstSize then 6 else 0
    ensures dst[..pos + n] == old(dst[..pos])
              + (if n == 0 then [] else [BACKSLASH, LETTER_U, ZERO, ZERO, HexDigit(c / 16), HexDigit(c % 16)])
    ensures forall i :: pos + n < i < dst.Length ==> dst[i] == old(dst[i])
  {
    if pos + 6 >= dstSize {
      return 0;
    }
    dst[pos], dst[pos + 1], dst[pos + 2], dst[pos + 3] := BACKSLASH, LETTER_U, ZERO, ZERO;
    dst[pos + 4], dst[pos + 5], dst[pos + 6] := HexDigit(c / 16), HexDigit(c % 16), 0;
    return 6;
  }

  /**
   * The loop. `src` is a C string (None for a null pointer). The buffer receives the whole escape of
   * the longest prefix that fits, and a terminator; the rest of the buffer is left alone.
   */
  method Escape(dst: array<byte>, dstSize: nat, src: Option<seq<byte>>) returns (ghost k: nat)
    requires dstSize <= dst.Length
    requires src.Some? ==> 0 !in src.value
    modifies dst
    ensures dstSize == 0 ==> dst[..] == old(dst[..])
    ensures dstSize > 0 ==>
              var s := if src.Some? then src.value else [];
              var text := EscapedAll(s[..Min(k, |s|)]);
              && LongestFit(s, k, dstSize)
              && |text| < dstSize
              && dst[..|text|] == text && dst[|text|] == 0
              && dst[|text| + 1..] == old(dst[|text| + 1..])
              && Unescaped(dst[..|text|]) == Some(Units(s[..k]))
  {
    hide LongestFit;
    k := 0;
    if dstSize == 0 {
      return;
    }
    var pos := 0;
    var s := if src.Some? then src.value else [];
    var p := 0;
    while p < |s| && pos + 1 < dstSize
      invariant p <= |s| && pos < dstSize
      invariant pos == |EscapedAll(s[..p])| && dst[..pos] == EscapedAll(s[..p])
      invariant forall i :: pos < i < dst.Length ==> dst[i] == old(dst[i])
      decreases |s| - p
    {
      OneMore(s, p);
      var n := PutEscape(dst, dstSize, pos, s[p]);
      if n == 0 {
        break;
      }
      pos := pos + n;
      p := p + 1;
    }
    NextDoesNotFit(s, p, dstSize);
    dst[pos] := 0;
    k := p;
    assert s[..Min(k, |s|)] == s[..k];
    EscapeReadsBack(s[..k]);
  }
}
