/** The resynchronising frame scanner and the byte accounting of one logged chunk. */
module FrameScan {
  import opened Bytes
  import opened FrameCodec

  const OP_MESSAGE: byte := 0x02
  const MAX_FRAMES_PER_LINE := 32

  datatype Summary = Summary(opcode: byte, rmiId: nat, hasRmi: bool, bodyLen: nat)

  function SummarizePayload(p: seq<byte>): Summary {
    if p == [] then Summary(0, 0, false, 0)
    else if p[0] == OP_MESSAGE && |p| >= 3 then
      Summary(p[0], p[1] as nat + 0x100 * (p[2] as nat), true, |p| - 3)
    else Summary(p[0], 0, false, |p| - 1)
  }

  datatype Frame = Frame(wireBytes: nat, payloadLen: nat, inner: Summary)

  /** What the scanner does with the bytes in front of it. */
  datatype Look = Skip | Stop | Take(wire: nat)

  /** The three bytes that start a frame. */
  predicate Header(d: seq<byte>, at: nat)
    requires at + 3 <= |d|
  {
    d[at] == MAGIC_LOW && d[at + 1] == MAGIC_HIGH && (d[at + 2] == 1 || d[at + 2] == 2 || d[at + 2] == 4)
  }

  function LookAt(d: seq<byte>): (r: Look)
    ensures r.Take? ==> 4 <= r.wire <= |d| && Header(d, 0)
    ensures r.Skip? ==> d != []
  {
    if |d| < 3 then Stop
    else if !Header(d, 0) then Skip
    else if 3 + d[2] as nat > |d| then Stop
    else
      var wire := 3 + d[2] as nat + ReadLengthLe(d[3..], d[2]);
      if wire > |d| then Stop else Take(wire)
  }

  /** The report on one whole frame. */
  function Report(w: seq<byte>): Frame
    requires LookAt(w) == Take(|w|)
  {
    var payload := w[3 + w[2] as nat..];
    Frame(|w|, |payload|, SummarizePayload(payload))
  }

  /** A chunk falls into bytes skipped one at a time and whole frames. */
  datatype Segment = Noise(b: byte) | Whole(w: seq<byte>)
  datatype Parsed = Parsed(segments: seq<Segment>, rest: seq<byte>)

  ghost predicate Genuine(segments: seq<Segment>) {
    forall s <- segments :: s.Whole? ==> LookAt(s.w) == Take(|s.w|)
  }

  function SegmentBytes(s: Segment): seq<byte> {
    if s.Whole? then s.w else [s.b]
  }

  /** How many bytes the scanner moves past at once. */
  function Advance(d: seq<byte>): (n: nat)
    requires !LookAt(d).Stop?
    ensures 1 <= n <= |d|
  {
    if LookAt(d).Skip? then 1 else LookAt(d).wire
  }

  function First(d: seq<byte>): (s: Segment)
    requires !LookAt(d).Stop?
    ensures Genuine([s]) && SegmentBytes(s) == d[..Advance(d)]
  {
    var n := Advance(d);
    assert d == d[..n] + d[n..];
    if LookAt(d).Skip? then Noise(d[0]) else TakeIsLocal(d[..n], d[n..]); Whole(d[..n])
  }

  function Parse(d: seq<byte>): (p: Parsed)
    ensures Genuine(p.segments)
    ensures |p.rest| <= |d|
  {
    if LookAt(d).Stop? then Parsed([], d)
    else
      var p := Parse(d[Advance(d)..]);
      Parsed([First(d)] + p.segments, p.rest)
  }

  /**
   * The decision, in the numbers on the wire: no header, skip; a header whose length field or payload is
   * not all there, stop; else take header and as many bytes as the field says.
   */
  lemma LookDecides(d: seq<byte>)
    ensures LookAt(d).Skip? <==> |d| >= 3 && !(d[0] == 0x13 && d[1] == 0x57 && (d[2] == 1 || d[2] == 2 || d[2] == 4))
    ensures forall n: nat :: LookAt(d) == Take(n) <==>
              && 3 <= n <= |d| && d[0] == 0x13 && d[1] == 0x57 && (d[2] == 1 || d[2] == 2 || d[2] == 4)
              && 3 + d[2] as nat <= n && n == 3 + d[2] as nat + FromLE(d[3..3 + d[2] as nat])
  {
    if |d| >= 3 && Header(d, 0) && 3 + d[2] as nat <= |d| {
      ReadLengthIsLittleEndian(d[3..], d[2]);
      assert d[3..][..d[2]] == d[3..3 + d[2] as nat];
    }
  }

  /** The same, giving up after `cap` frames. */
  function ParseUpTo(d: seq<byte>, cap: nat): (p: Parsed)
    ensures Genuine(p.segments)
    decreases |d|
  {
    if cap == 0 || LookAt(d).Stop? then Parsed([], d)
    else
      var p := ParseUpTo(d[Advance(d)..], if First(d).Whole? then cap - 1 else cap);
      Parsed([First(d)] + p.segments, p.rest)
  }

  function Frames(segments: seq<Segment>): seq<Frame>
    requires Genuine(segments)
  {
    if segments == [] then []
    else if segments[0].Noise? then Frames(segments[1..])
    else [Report(segments[0].w)] + Frames(segments[1..])
  }

  function BytesOf(segments: seq<Segment>): seq<byte> {
    if segments == [] then [] else SegmentBytes(segments[0]) + BytesOf(segments[1..])
  }

  function NoiseCount(segments: seq<Segment>): nat {
    if segments == [] then 0
    else (if segments[0].Noise? then 1 else 0) + NoiseCount(segments[1..])
  }

  function WireSum(frames: seq<Frame>): nat {
    if frames == [] then 0 else frames[0].wireBytes + WireSum(frames[1..])
  }

  // ---- What has been decided stays decided when more bytes arrive ----

  /** A decision other than stopping does not depend on the bytes that follow. */
  lemma DecisionStable(a: seq<byte>, b: seq<byte>)
    requires !LookAt(a).Stop?
    ensures LookAt(a + b) == LookAt(a)
  {
    assert |a| >= 3 && (a + b)[..3] == a[..3];
    if Header(a, 0) {
      LengthLocal(a, b);
    }
  }

  lemma LengthLocal(a: seq<byte>, b: seq<byte>)
    requires |a| >= 3 && Header(a, 0) && 3 + a[2] as nat <= |a|
    ensures ReadLengthLe((a + b)[3..], a[2]) == ReadLengthLe(a[3..], a[2])
  {
    assert (a + b)[3..] == a[3..] + b;
    if a[2] == 4 {
      assert (a[3..] + b)[..4] == a[3..][..4];
    }
  }

  /** A frame taken out of a longer chunk is a frame on its own. */
  lemma TakeIsLocal(w: seq<byte>, rest: seq<byte>)
    requires LookAt(w + rest) == Take(|w|)
    ensures LookAt(w) == Take(|w|)
  {
    var d := w + rest;
    assert |w| >= 3 && d[..3] == w[..3] && Header(w, 0);
    assert 3 + w[2] as nat <= |w|;
    LengthLocal(w, rest);
  }

  lemma {:induction false} FramesConcat(s: seq<Segment>, t: seq<Segment>)
    requires Genuine(s) && Genuine(t)
    ensures Genuine(s + t) && Frames(s + t) == Frames(s) + Frames(t)
  {
    if s == [] {
      assert s + t == t;
    } else {
      FramesConcat(s[1..], t);
      assert (s + t)[0] == s[0] && (s + t)[1..] == s[1..] + t;
      if s[0].Whole? {
        Regroup([Report(s[0].w)], Frames(s[1..]), Frames(t));
      }
    }
  }

  lemma FirstStable(a: seq<byte>, b: seq<byte>)
    requires !LookAt(a).Stop?
    ensures LookAt(a + b) == LookAt(a) && First(a + b) == First(a)
    ensures (a + b)[Advance(a)..] == a[Advance(a)..] + b
  {
    DecisionStable(a, b);
    assert (a + b)[..Advance(a)] == a[..Advance(a)];
  }

  lemma FramesUnfold(s: Segment, t: seq<Segment>)
    requires Genuine([s] + t)
    ensures Genuine([s]) && Genuine(t)
    ensures Frames([s] + t) == if s.Noise? then Frames(t) else [Report(s.w)] + Frames(t)
    ensures BytesOf([s] + t) == SegmentBytes(s) + BytesOf(t)
    ensures NoiseCount([s] + t) == (if s.Noise? then 1 else 0) + NoiseCount(t)
  {
    assert ([s] + t)[0] == s && ([s] + t)[1..] == t;
    assert forall x <- t :: x in [s] + t;
  }

  /** Parsing a chunk, then what was left of it with the next chunk, is parsing both at once. */
  lemma {:induction false} SplitInTwo(a: seq<byte>, b: seq<byte>)
    ensures Parse(a + b).segments == Parse(a).segments + Parse(Parse(a).rest + b).segments
    ensures Parse(a + b).rest == Parse(Parse(a).rest + b).rest
    decreases |a|
  {
    if LookAt(a).Stop? {
      assert Parse(a).segments + Parse(a + b).segments == Parse(a + b).segments;
    } else {
      var f, more := [First(a)], a[Advance(a)..];
      FirstStable(a, b);
      SplitInTwo(more, b);
      ParseUnfold(a + b);
      ParseUnfold(a);
      Regroup(f, Parse(more).segments, Parse(Parse(more).rest + b).segments);
    }
  }

  lemma ParseUnfold(d: seq<byte>)
    requires !LookAt(d).Stop?
    ensures Parse(d) == Parsed([First(d)] + Parse(d[Advance(d)..]).segments, Parse(d[Advance(d)..]).rest)
  {
  }

  /** The frames of a chunk are a prefix of the frames of any longer one; the carry yields the rest. */
  lemma ChunkSplit(a: seq<byte>, b: seq<byte>)
    ensures Frames(Parse(a + b).segments)
         == Frames(Parse(a).segments) + Frames(Parse(Parse(a).rest + b).segments)
  {
    SplitInTwo(a, b);
    FramesConcat(Parse(a).segments, Parse(Parse(a).rest + b).segments);
  }

  /** A receiver that carries the unparsed tail from each chunk into the next. */
  function Feed(carry: seq<byte>, chunks: seq<seq<byte>>): seq<Frame>
    decreases |chunks|
  {
    if chunks == [] then []
    else
      var p := Parse(carry + chunks[0]);
      Frames(p.segments) + Feed(p.rest, chunks[1..])
  }

  lemma RestIsStuck(d: seq<byte>)
    ensures LookAt(Parse(d).rest).Stop?
  {
  }

  /** However the stream is cut into chunks, the carrying receiver reports the frames of the stream. */
  lemma {:induction false} AnyChunking(carry: seq<byte>, chunks: seq<seq<byte>>)
    requires LookAt(carry).Stop?
    ensures Feed(carry, chunks) == Frames(Parse(carry + Joined(chunks)).segments)
    decreases |chunks|
  {
    if chunks == [] {
      assert carry + Joined(chunks) == carry;
    } else {
      var a, b := carry + chunks[0], Joined(chunks[1..]);
      assert carry + Joined(chunks) == a + b;
      ChunkSplit(a, b);
      RestIsStuck(a);
      AnyChunking(Parse(a).rest, chunks[1..]);
    }
  }

  /** A cap of k yields the first k frames. */
  lemma {:induction false} CapIsPrefix(d: seq<byte>, cap: nat)
    ensures var all := Frames(Parse(d).segments);
            Frames(ParseUpTo(d, cap).segments) == all[..Min(cap, |all|)]
    decreases |d|
  {
    if cap > 0 && !LookAt(d).Stop? {
      var more, left := d[Advance(d)..], if First(d).Whole? then cap - 1 else cap;
      CapIsPrefix(more, left);
      FramesUnfold(First(d), Parse(more).segments);
      FramesUnfold(First(d), ParseUpTo(more, left).segments);
    }
  }

  // ---- Conservation ----

  lemma {:induction false} CutIntoPieces(d: seq<byte>, cap: nat)
    ensures BytesOf(ParseUpTo(d, cap).segments) + ParseUpTo(d, cap).rest == d
    decreases |d|
  {
    hide Frames;
    hide LookAt;
    if cap > 0 && !LookAt(d).Stop? {
      var more, left := d[Advance(d)..], if First(d).Whole? then cap - 1 else cap;
      var q := ParseUpTo(more, left);
      CutIntoPieces(more, left);
      FramesUnfold(First(d), q.segments);
      assert d == d[..Advance(d)] + more;
      Regroup(d[..Advance(d)], BytesOf(q.segments), q.rest);
    }
  }

  lemma {:induction false} PiecesAddUp(segments: seq<Segment>)
    requires Genuine(segments)
    ensures WireSum(Frames(segments)) + NoiseCount(segments) == |BytesOf(segments)|
  {
    if segments != [] {
      var s, t := segments[0], segments[1..];
      PiecesAddUp(t);
      if s.Whole? {
        assert ([Report(s.w)] + Frames(t))[1..] == Frames(t);
      }
    }
  }

  /**
   * The segments and the rest are the chunk, cut into pieces: frames are disjoint, in order and inside
   * it, and their wire bytes, the skipped bytes and the rest add up to its length, cap or no cap.
   */
  lemma Conservation(d: seq<byte>, cap: nat)
    ensures var p := ParseUpTo(d, cap);
            && BytesOf(p.segments) + p.rest == d
            && WireSum(Frames(p.segments)) + NoiseCount(p.segments) + |p.rest| == |d|
            && |Frames(p.segments)| <= cap
  {
    CutIntoPieces(d, cap);
    PiecesAddUp(ParseUpTo(d, cap).segments);
    CapIsPrefix(d, cap);
  }

  // ---- Self-synchronisation ----

  /** No three bytes in a row look like the start of a frame. */
  ghost predicate Clean(junk: seq<byte>) {
    forall i :: 0 <= i <= |junk| - 3 ==> !Header(junk, i)
  }

  /** The stream of the given payloads, each behind some junk. */
  function Stream(junks: seq<seq<byte>>, payloads: seq<seq<byte>>): seq<byte>
    requires |junks| == |payloads|
  {
    if junks == [] then [] else junks[0] + (Wrapped(payloads[0]) + Stream(junks[1..], payloads[1..]))
  }

  /** The report a receiver should give of one payload. */
  function Expected(payload: seq<byte>): Frame {
    Frame(|Wrapped(payload)|, |payload|, SummarizePayload(payload))
  }

  function ExpectedAll(payloads: seq<seq<byte>>): seq<Frame> {
    if payloads == [] then [] else [Expected(payloads[0])] + ExpectedAll(payloads[1..])
  }

  /** The wrapper's output is taken whole, whatever follows it. */
  lemma WrappedIsTaken(payload: seq<byte>, rest: seq<byte>)
    requires |payload| < TWO32
    ensures LookAt(Wrapped(payload) + rest) == Take(|Wrapped(payload)|)
    ensures LookAt(Wrapped(payload)) == Take(|Wrapped(payload)|)
    ensures Report(Wrapped(payload)) == Expected(payload)
  {
    var w := Wrapped(payload);
    var t := Tag(|payload|);
    assert w[0] == MAGIC_LOW && w[1] == MAGIC_HIGH && w[2] == t;
    assert w[3..][..t] == LengthField(|payload|)[1..];
    assert LengthField(|payload|)[1..][..t] == LengthField(|payload|)[1..];
    LengthRoundTripIff(|payload|);
    DecisionStable(w, rest);
    assert w[3 + t..] == payload;
  }

  lemma WrappedThenMore(payload: seq<byte>, more: seq<byte>)
    requires |payload| < TWO32
    ensures Frames(Parse(Wrapped(payload) + more).segments) == [Expected(payload)] + Frames(Parse(more).segments)
  {
    var d := Wrapped(payload) + more;
    WrappedIsTaken(payload, more);
    assert d[..|Wrapped(payload)|] == Wrapped(payload) && d[|Wrapped(payload)|..] == more;
    FramesUnfold(First(d), Parse(more).segments);
  }

  /** A proper prefix of a frame is never taken, and never skipped into. */
  lemma PartialFrameStops(payload: seq<byte>, k: nat)
    requires |payload| < TWO32 && k < |Wrapped(payload)|
    ensures LookAt(Wrapped(payload)[..k]).Stop?
  {
    var w := Wrapped(payload);
    WrappedIsTaken(payload, []);
    assert w == w[..k] + w[k..];
    if !LookAt(w[..k]).Stop? {
      DecisionStable(w[..k], w[k..]);
      assert false;
    }
  }

  /** Junk is skipped to its end: no header straddles into what follows, if that starts like a frame. */
  lemma {:induction false} JunkIsSkipped(junk: seq<byte>, rest: seq<byte>)
    requires Clean(junk) && (rest != [] ==> rest[0] == MAGIC_LOW)
    ensures Frames(Parse(junk + rest).segments) == Frames(Parse(rest).segments)
  {
    var d := junk + rest;
    if junk == [] {
      assert d == rest;
    } else if |d| >= 3 {
      assert !Header(d, 0) by {
        if |junk| >= 3 {
          assert !Header(junk, 0);
        }
      }
      assert d[1..] == junk[1..] + rest;
      assert Clean(junk[1..]) by {
        forall i | 0 <= i <= |junk[1..]| - 3 ensures !Header(junk[1..], i) {
          assert !Header(junk, i + 1);
        }
      }
      JunkIsSkipped(junk[1..], rest);
      FramesUnfold(First(d), Parse(d[1..]).segments);
    }
  }

  /**
   * Self-synchronising round trip: any sequence of wrapped payloads, with clean junk before, between
   * and after them and cut off anywhere inside a last frame, scans to exactly those payloads.
   */
  lemma {:induction false} SelfSynchronising(junks: seq<seq<byte>>, payloads: seq<seq<byte>>,
                                             last: seq<byte>, cut: seq<byte>, k: nat)
    requires |junks| == |payloads|
    requires forall j <- junks :: Clean(j)
    requires forall p <- payloads :: |p| < TWO32
    requires Clean(last) && |cut| < TWO32 && k < |Wrapped(cut)|
    ensures Frames(Parse(Stream(junks, payloads) + (last + Wrapped(cut)[..k])).segments)
         == ExpectedAll(payloads)
    decreases |junks|
  {
    var tail := last + Wrapped(cut)[..k];
    if junks == [] {
      assert Stream(junks, payloads) + tail == tail;
      JunkIsSkipped(last, Wrapped(cut)[..k]);
      PartialFrameStops(cut, k);
    } else {
      var more := Stream(junks[1..], payloads[1..]) + tail;
      assert Stream(junks, payloads) + tail == junks[0] + (Wrapped(payloads[0]) + more);
      JunkIsSkipped(junks[0], Wrapped(payloads[0]) + more);
      WrappedThenMore(payloads[0], more);
      SelfSynchronising(junks[1..], payloads[1..], last, cut, k);
    }
  }

  /** Bytes before the first header of some junk are skipped, whatever follows. */
  lemma {:induction false} SkippedToHeader(junk: seq<byte>, i: nat, rest: seq<byte>)
    requires i + 3 <= |junk| && forall k :: 0 <= k < i ==> !Header(junk, k)
    ensures Frames(Parse(junk + rest).segments) == Frames(Parse(junk[i..] + rest).segments)
    decreases i
  {
    if i > 0 {
      var d, more := junk + rest, junk[1..];
      assert !Header(junk, 0) && !Header(d, 0);
      assert d[1..] == more + rest && more[i - 1..] == junk[i..];
      forall k | 0 <= k < i - 1 ensures !Header(more, k) {
        assert !Header(junk, k + 1);
      }
      SkippedToHeader(more, i - 1, rest);
      FramesUnfold(First(d), Parse(d[1..]).segments);
    }
  }

  /** Bytes that start like a frame are scanned as that frame, or not at all. */
  lemma HeaderComesFirst(d: seq<byte>)
    requires |d| >= 3 && Header(d, 0)
    ensures var frames := Frames(Parse(d).segments);
            frames != [] ==> LookAt(d).Take? && frames[0].wireBytes == LookAt(d).wire
  {
    if LookAt(d).Take? {
      FramesUnfold(First(d), Parse(d[Advance(d)..]).segments);
    }
  }

  /** A header whose length byte is not 0 does not fit the empty payload, any other not the one-byte one. */
  lemma HeaderHidesOne(junk: seq<byte>)
    requires |junk| >= 3 && Header(junk, 0)
    ensures Frames(Parse(junk + Wrapped([])).segments) != [Expected([])]
         || Frames(Parse(junk + Wrapped([0])).segments) != [Expected([0])]
  {
    hide Parse;
    hide Frames;
    var d, e := junk + Wrapped([]), junk + Wrapped([0]);
    HeaderComesFirst(d);
    HeaderComesFirst(e);
    WireOfFour(d, Wrapped([]), junk);
    WireOfFour(e, Wrapped([0]), junk);
    if |junk| > 3 {
      assert d[3] == e[3];
    }
  }

  /** The tag and the length byte behind a header, the latter possibly the magic of what follows. */
  lemma WireOfFour(d: seq<byte>, w: seq<byte>, junk: seq<byte>)
    requires d == junk + w && |junk| >= 3 && Header(junk, 0) && |w| >= 4 && w[0] == MAGIC_LOW
    ensures Header(d, 0) && (LookAt(d) == Take(4) ==> d[3] == 0)
    ensures d[2] == 1 && LookAt(d).Take? ==> LookAt(d).wire == 4 + d[3] as nat
    ensures d[2] == junk[2] && (|junk| == 3 ==> d[3] == MAGIC_LOW)
  {
    assert d[3..][0] == d[3];
  }

  /** Is every payload wrapped behind this junk found, and nothing else? */
  ghost predicate HidesNothing(junk: seq<byte>) {
    forall p: seq<byte> :: |p| < TWO32 ==> Frames(Parse(junk + Wrapped(p)).segments) == [Expected(p)]
  }

  lemma FoundBehindClean(junk: seq<byte>, p: seq<byte>)
    requires Clean(junk) && |p| < TWO32
    ensures Frames(Parse(junk + Wrapped(p)).segments) == [Expected(p)]
  {
    JunkIsSkipped(junk, Wrapped(p));
    WrappedThenMore(p, []);
    assert Wrapped(p) + [] == Wrapped(p);
  }

  /** Exactly the junk without a header hides nothing behind it. */
  lemma CleanIffHidesNothing(junk: seq<byte>)
    ensures Clean(junk) <==> HidesNothing(junk)
  {
    hide Parse;
    hide Frames;
    hide Wrapped;
    hide Expected;
    if Clean(junk) {
      forall p: seq<byte> | |p| < TWO32 {
        FoundBehindClean(junk, p);
      }
    } else {
      var i := FirstHeader(junk);
      SkippedToHeader(junk, i, Wrapped([]));
      SkippedToHeader(junk, i, Wrapped([0]));
      HeaderHidesOne(junk[i..]);
    }
  }

  lemma FirstHeader(junk: seq<byte>) returns (i: nat)
    requires !Clean(junk)
    ensures i + 3 <= |junk| && Header(junk, i) && forall k :: 0 <= k < i ==> !Header(junk, k)
  {
    i := 0;
    while !Header(junk, i)
      invariant i + 3 <= |junk| && forall k :: 0 <= k < i ==> !Header(junk, k)
      decreases |junk| - i
    {
      i := i + 1;
    }
  }

  /** Such a header can swallow what follows without a trace. */
  lemma DirtyJunkHidesFrames()
    ensures var junk := [MAGIC_LOW, MAGIC_HIGH, 1, 0xFF];
            && !Clean(junk)
            && Frames(Parse(junk + Wrapped([0x2F])).segments) == []
            && Frames(Parse(Wrapped([0x2F])).segments) == [Expected([0x2F])]
  {
    var junk: seq<byte> := [MAGIC_LOW, MAGIC_HIGH, 1, 0xFF];
    assert Header(junk, 0);
    var d := junk + Wrapped([0x2F]);
    assert d[3..][0] == 0xFF;
    assert LookAt(d).Stop?;
    WrappedThenMore([0x2F], []);
    assert Wrapped([0x2F]) + [] == Wrapped([0x2F]);
  }

  // ---- What a report says ----

  /** A message: opcode 2, the id in two bytes, the body. */
  function Message(id: nat, body: seq<byte>): seq<byte> {
    [0x02] + LowBytes(id, 2) + body
  }

  /** A message's summary gives back its id and the length of its body. */
  lemma MessageIsSummarised(id: nat, body: seq<byte>)
    requires id < 0x1_0000
    ensures SummarizePayload(Message(id, body)) == Summary(2, id, true, |body|)
  {
    var p := Message(id, body);
    assert LowBytes(id, 2) == [id % 0x100] + LowBytes(id / 0x100, 1);
    assert LowBytes(id / 0x100, 1) == [id / 0x100 % 0x100] + LowBytes(id / 0x1_0000, 0);
    assert p[1] == id % 0x100 && p[2] == id / 0x100;
  }

  /** Exactly opcode 2 with room for an id is read as a message, and then it is one. */
  lemma SummaryMeans(p: seq<byte>)
    ensures var s := SummarizePayload(p);
            && (p == [] ==> s == Summary(0, 0, false, 0))
            && (p != [] ==> s.opcode == p[0])
            && (s.hasRmi <==> |p| >= 3 && p[0] == 2)
            && (s.hasRmi ==> s.rmiId < 0x1_0000 && p == Message(s.rmiId, p[3..]) && s.bodyLen == |p[3..]|)
            && (!s.hasRmi ==> s.rmiId == 0)
            && (p != [] && !s.hasRmi ==> s.bodyLen + 1 == |p|)
  {
    if |p| >= 3 && p[0] == 2 {
      var id := p[1] as nat + 0x100 * (p[2] as nat);
      assert LowBytes(id, 2) == [id % 0x100] + LowBytes(id / 0x100, 1);
      assert LowBytes(id / 0x100, 1) == [id / 0x100 % 0x100] + LowBytes(id / 0x1_0000, 0);
      assert LowBytes(id, 2) == p[1..3];
      assert p == [p[0]] + p[1..3] + p[3..];
    }
  }

  /** A report on a frame gives its size, the length its field announces, and the summary of the payload. */
  lemma ReportMeans(w: seq<byte>)
    requires LookAt(w) == Take(|w|)
    ensures |w| >= 3 + w[2] as nat
    ensures Report(w) == Frame(|w|, FromLE(w[3..3 + w[2] as nat]), SummarizePayload(w[3 + w[2] as nat..]))
  {
    LookDecides(w);
  }

  /** What the scanner writes first for a wrapped message, whatever follows it. */
  lemma MessageIsReported(id: nat, body: seq<byte>, more: seq<byte>, cap: nat)
    requires id < 0x1_0000 && |body| + 3 < TWO32 && cap > 0
    ensures var w := Wrapped(Message(id, body));
            && Found(w + more, cap) != []
            && Found(w + more, cap)[0] == Frame(|w|, |body| + 3, Summary(2, id, true, |body|))
            && (more == [] ==> |Found(w + more, cap)| == 1)
  {
    var p := Message(id, body);
    MessageIsSummarised(id, body);
    WrappedThenMore(p, more);
    CapIsPrefix(Wrapped(p) + more, cap);
    if more == [] {
      assert Parse(more) == Parsed([], more);
    }
  }

  // ---- The scanner in 32-bit sizes ----

  const MAX_CHUNK := 0x8000_0000  // chunk lengths come from the socket calls as signed integers

  /** Header and length field are there, and offset plus wire size leave 32 bits. */
  predicate Wraps(d: seq<byte>, off: nat)
    requires off + 3 <= |d|
  {
    && Header(d, off) && off + 3 + d[off + 2] as nat <= |d|
    && off + 3 + d[off + 2] as nat + ReadLengthLe(d[off + 3..], d[off + 2]) >= TWO32
  }

  /** The decision at one offset with sums modulo 2^32. */
  function Look32(d: seq<byte>, off: nat): Look
    requires off + 3 <= |d|
  {
    if !Header(d, off) then Skip
    else if off + 3 + d[off + 2] as nat > |d| then Stop
    else
      var wire := (3 + d[off + 2] as nat + ReadLengthLe(d[off + 3..], d[off + 2])) % TWO32;
      if (off + wire) % TWO32 > |d| then Stop else Take(wire)
  }

  /** It is the decision without them exactly if nothing wraps; if it does, a frame is taken for granted. */
  lemma LookIsExactIff(d: seq<byte>, off: nat)
    requires |d| < MAX_CHUNK && off + 3 <= |d|
    ensures Look32(d, off) == LookAt(d[off..]) <==> !Wraps(d, off)
    ensures Wraps(d, off) ==> Look32(d, off).Take? && LookAt(d[off..]).Stop?
  {
    hide ReadLengthLe;
    var e := d[off..];
    assert Header(d, off) == Header(e, 0) && e[2] == d[off + 2] && e[3..] == d[off + 3..];
    if Header(d, off) && off + 3 + d[off + 2] as nat <= |d| {
      LengthBelow32Bits(d[off + 3..], d[off + 2]);
      var wire := 3 + d[off + 2] as nat + ReadLengthLe(d[off + 3..], d[off + 2]);
      WrapsOnce(wire);
      WrapsOnce(off + wire % TWO32);
    }
  }

  lemma WrapsOnce(n: nat)
    requires n < 2 * TWO32
    ensures n % TWO32 == if n < TWO32 then n else n - TWO32
  {
  }

  lemma LengthBelow32Bits(p: seq<byte>, width: nat)
    requires (width == 1 || width == 2 || width == 4) && |p| >= width
    ensures ReadLengthLe(p, width) < TWO32
    ensures width < 4 ==> ReadLengthLe(p, width) < 0x1_0000
  {
  }

  predicate TakenAt(d: seq<byte>, t: (nat, nat)) {
    t.0 <= |d| && LookAt(d[t.0..]) == Take(t.1)
  }

  /** Where a scan from `off` takes frames, and of what wire size. */
  function Takes(d: seq<byte>, off: nat, cap: nat): (ts: seq<(nat, nat)>)
    requires off <= |d|
    ensures forall t <- ts :: TakenAt(d, t)
    decreases |d| - off
  {
    if cap == 0 || off + 3 > |d| then []
    else
      match LookAt(d[off..])
      case Stop => []
      case Skip => Takes(d, off + 1, cap)
      case Take(wire) => [(off, wire)] + Takes(d, off + wire, cap - 1)
  }

  /** The same in 32-bit sizes. */
  function Takes32(d: seq<byte>, off: nat, cap: nat): seq<(nat, nat)>
    requires off <= |d|
    decreases cap, |d| - off
  {
    if cap == 0 || off + 3 > |d| then []
    else
      match Look32(d, off)
      case Stop => []
      case Skip => Takes32(d, off + 1, cap)
      case Take(wire) => [(off, wire)] + Takes32(d, (off + wire) % TWO32, cap - 1)
  }

  /** Does the scan come to a length field that wraps before it stops or is full? */
  predicate MeetsWrap(d: seq<byte>, off: nat, cap: nat)
    requires off <= |d|
    decreases |d| - off
  {
    cap > 0 && off + 3 <= |d| &&
    (Wraps(d, off) ||
     match LookAt(d[off..])
     case Stop => false
     case Skip => MeetsWrap(d, off + 1, cap)
     case Take(wire) => MeetsWrap(d, off + wire, cap - 1))
  }

  /** One turn of both scans where nothing wraps. */
  lemma ScanTurn(d: seq<byte>, off: nat, cap: nat)
    requires |d| < MAX_CHUNK && off + 3 <= |d| && cap > 0 && !Wraps(d, off)
    ensures match LookAt(d[off..])
            case Stop => Takes32(d, off, cap) == Takes(d, off, cap) == [] && !MeetsWrap(d, off, cap)
            case Skip =>
              && Takes32(d, off, cap) == Takes32(d, off + 1, cap) && Takes(d, off, cap) == Takes(d, off + 1, cap)
              && MeetsWrap(d, off, cap) == MeetsWrap(d, off + 1, cap)
            case Take(n) =>
              && Takes32(d, off, cap) == [(off, n)] + Takes32(d, off + n, cap - 1)
              && Takes(d, off, cap) == [(off, n)] + Takes(d, off + n, cap - 1)
              && MeetsWrap(d, off, cap) == MeetsWrap(d, off + n, cap - 1)
  {
    hide Look32;
    hide LookAt;
    hide Wraps;
    LookIsExactIff(d, off);
  }

  /** A wrapping field makes the program's scan take a frame where the mathematical one ends. */
  lemma ScanTurnWraps(d: seq<byte>, off: nat, cap: nat)
    requires |d| < MAX_CHUNK && off + 3 <= |d| && cap > 0 && Wraps(d, off)
    ensures MeetsWrap(d, off, cap) && Takes(d, off, cap) == [] && Takes32(d, off, cap) != []
  {
    LookIsExactIff(d, off);
    hide Look32;
    hide LookAt;
  }

  /** The program's scan takes the frames of the mathematical one exactly if it meets no such field. */
  lemma {:induction false} ScanIsExactIff(d: seq<byte>, off: nat, cap: nat)
    requires |d| < MAX_CHUNK && off <= |d|
    ensures Takes32(d, off, cap) == Takes(d, off, cap) <==> !MeetsWrap(d, off, cap)
    decreases |d| - off
  {
    hide LookAt;
    hide Wraps;
    if cap == 0 || off + 3 > |d| {
      return;
    }
    if Wraps(d, off) {
      ScanTurnWraps(d, off, cap);
      return;
    }
    hide Takes;
    hide Takes32;
    hide MeetsWrap;
    ScanTurn(d, off, cap);
    match LookAt(d[off..])
    case Stop =>
    case Skip => ScanIsExactIff(d, off + 1, cap);
    case Take(n) =>
      ScanIsExactIff(d, off + n, cap - 1);
      SameTail((off, n), Takes32(d, off + n, cap - 1), Takes(d, off + n, cap - 1));
  }

  lemma SameTail(t: (nat, nat), a: seq<(nat, nat)>, b: seq<(nat, nat)>)
    ensures [t] + a == [t] + b <==> a == b
  {
    assert ([t] + a)[1..] == a && ([t] + b)[1..] == b;
  }

  /** No four-byte length field with less than the chunk's length to 2^32: then none is met. */
  lemma {:induction false} NoneMetIfShort(d: seq<byte>, off: nat, cap: nat)
    requires |d| < MAX_CHUNK && off <= |d|
    requires forall i :: 0 <= i <= |d| - 7 && Header(d, i) && d[i + 2] == 4 ==>
               |d| + 7 + FromLE32(d[i + 3..i + 7]) <= TWO32
    ensures !MeetsWrap(d, off, cap)
    decreases |d| - off
  {
    if cap > 0 && off + 3 <= |d| {
      if Header(d, off) && off + 3 + d[off + 2] as nat <= |d| {
        LengthBelow32Bits(d[off + 3..], d[off + 2]);
        if d[off + 2] == 4 {
          assert d[off + 3..][..4] == d[off + 3..off + 7];
        }
      }
      match LookAt(d[off..])
      case Stop =>
      case Skip => NoneMetIfShort(d, off + 1, cap);
      case Take(wire) => NoneMetIfShort(d, off + wire, cap - 1);
    }
  }

  /** The reports on the frames taken. */
  function ReportsAt(d: seq<byte>, ts: seq<(nat, nat)>): seq<Frame>
    requires forall t <- ts :: TakenAt(d, t)
  {
    if ts == [] then [] else assert TakenAt(d, ts[0]); [FrameAt(d[ts[0].0..])] + ReportsAt(d, ts[1..])
  }

  lemma ReportsOfMore(d: seq<byte>, off: nat, n: nat, ts: seq<(nat, nat)>)
    requires off <= |d| && LookAt(d[off..]) == Take(n) && forall t <- ts :: TakenAt(d, t)
    ensures forall t <- [(off, n)] + ts :: TakenAt(d, t)
    ensures ReportsAt(d, [(off, n)] + ts) == [FrameAt(d[off..])] + ReportsAt(d, ts)
  {
    assert ([(off, n)] + ts)[1..] == ts;
  }

  /** They are those of the parse. */
  lemma {:induction false} TakesAreFound(d: seq<byte>, off: nat, cap: nat)
    requires off <= |d|
    ensures ReportsAt(d, Takes(d, off, cap)) == Found(d[off..], cap)
    decreases |d| - off
  {
    hide Found;
    hide LookAt;
    hide FrameAt;
    hide TakenAt;
    var e := d[off..];
    FoundStep(e, cap);
    if cap > 0 && off + 3 <= |d| && LookAt(e).Skip? {
      assert e[1..] == d[off + 1..];
      TakesAreFound(d, off + 1, cap);
    } else if cap > 0 && off + 3 <= |d| && LookAt(e).Take? {
      var n := LookAt(e).wire;
      assert e[n..] == d[off + n..];
      TakesAreFound(d, off + n, cap - 1);
      ReportsOfMore(d, off, n, Takes(d, off + n, cap - 1));
    }
  }

  lemma FoundStep(e: seq<byte>, cap: nat)
    ensures Found(e, cap) ==
              if cap == 0 || |e| < 3 then []
              else match LookAt(e)
                   case Stop => []
                   case Skip => Found(e[1..], cap)
                   case Take(n) => [FrameAt(e)] + Found(e[n..], cap - 1)
  {
    if cap > 0 && !LookAt(e).Stop? {
      var left := if LookAt(e).Take? then cap - 1 else cap;
      FramesUnfold(First(e), ParseUpTo(e[Advance(e)..], left).segments);
      if LookAt(e).Take? {
        FrameAtIsReport(e);
      }
    }
  }

  /** A length field of 2^32 - 7: its wire size is 0, and the program's scan takes it until it is full. */
  lemma {:induction false} ZeroWire(cap: nat)
    ensures var d: seq<byte> := [MAGIC_LOW, MAGIC_HIGH, 4, 0xF9, 0xFF, 0xFF, 0xFF];
            Wraps(d, 0) && Takes(d, 0, cap) == [] && |Takes32(d, 0, cap)| == cap
    decreases cap
  {
    var d: seq<byte> := [MAGIC_LOW, MAGIC_HIGH, 4, 0xF9, 0xFF, 0xFF, 0xFF];
    assert d[3..][..4] == [0xF9, 0xFF, 0xFF, 0xFF] && d[0..] == d;
    assert ReadLengthLe(d[3..], 4) == TWO32 - 7;
    LookIsExactIff(d, 0);
    if cap > 0 {
      ZeroWire(cap - 1);
    }
  }

  // ---- The loops ----

  /** The frames a capped scan reports. */
  function Found(d: seq<byte>, cap: nat): seq<Frame> {
    Frames(ParseUpTo(d, cap).segments)
  }

  /** `done` followed by what a scan of `d` still finds is the whole report. */
  ghost predicate Accounted(done: seq<Frame>, d: seq<byte>, cap: nat, all: seq<Frame>) {
    done + Found(d, cap) == all
  }

  lemma SkipOne(done: seq<Frame>, d: seq<byte>, off: nat, cap: nat, all: seq<Frame>)
    requires off <= |d| && Accounted(done, d[off..], cap, all) && cap > 0 && LookAt(d[off..]).Skip?
    ensures Accounted(done, d[off + 1..], cap, all)
  {
    assert d[off..][1..] == d[off + 1..];
    FramesUnfold(First(d[off..]), ParseUpTo(d[off + 1..], cap).segments);
  }

  /** The report the scanner writes, read off in place. */
  function FrameAt(d: seq<byte>): Frame
    requires LookAt(d).Take?
  {
    var hdr, wire := 3 + d[2] as nat, LookAt(d).wire;
    Frame(wire, wire - hdr, SummarizePayload(d[hdr..wire]))
  }

  lemma FrameAtIsReport(d: seq<byte>)
    requires LookAt(d).Take?
    ensures First(d).Whole? && FrameAt(d) == Report(First(d).w)
  {
    var n := LookAt(d).wire;
    assert d[..n][3 + d[2] as nat..] == d[3 + d[2] as nat..n];
  }

  lemma TakeOne(done: seq<Frame>, d: seq<byte>, off: nat, cap: nat, all: seq<Frame>)
    requires off <= |d| && Accounted(done, d[off..], cap, all) && cap > 0 && LookAt(d[off..]).Take?
    ensures Accounted(done + [FrameAt(d[off..])], d[off + LookAt(d[off..]).wire..], cap - 1, all)
  {
    var n := LookAt(d[off..]).wire;
    assert d[off..][n..] == d[off + n..];
    FrameAtIsReport(d[off..]);
    FramesUnfold(First(d[off..]), ParseUpTo(d[off + n..], cap - 1).segments);
    Regroup(done, [FrameAt(d[off..])], Found(d[off + n..], cap - 1));
  }

  lemma NothingLeft(done: seq<Frame>, d: seq<byte>, cap: nat, all: seq<Frame>)
    requires Accounted(done, d, cap, all) && (cap == 0 || LookAt(d).Stop?)
    ensures done == all
  {
  }

  /** The scanner: fills `out` with the first frames of the chunk and returns how many. */
  method ScanFrames(data: array?<byte>, len: nat, out: array?<Frame>, outCap: nat) returns (count: nat)
    requires data != null ==> len <= data.Length
    requires out != null ==> outCap <= out.Length
    modifies out
    ensures data == null || out == null ==> count == 0
    ensures out != null ==> count <= outCap && out[count..] == old(out[count..])
    ensures data != null && out != null ==> out[..count] == Found(data[..len], outCap)
  {
    if data == null || out == null || outCap == 0 {
      return 0;
    }
    count := ScanLoop(data[..len], out, outCap);
  }

  /** Report the frame at `off` in the next slot of `out`. */
  method Record(d: seq<byte>, off: nat, out: array<Frame>, count: nat, ghost cap: nat, ghost all: seq<Frame>)
    requires count < out.Length && off <= |d| && cap > 0 && LookAt(d[off..]).Take?
    requires Accounted(out[..count], d[off..], cap, all)
    modifies out
    ensures Accounted(out[..count + 1], d[off + LookAt(d[off..]).wire..], cap - 1, all)
    ensures forall i :: count < i < out.Length ==> out[i] == old(out[i])
  {
    TakeOne(out[..count], d, off, cap, all);
    ghost var done := out[..count];
    out[count] := FrameAt(d[off..]);
    assert out[..count + 1] == done + [FrameAt(d[off..])];
  }

  /** One turn of the loop: look, and write the report of a whole frame. */
  method ScanStep(d: seq<byte>, off: nat, out: array<Frame>, count: nat, ghost cap: nat, ghost all: seq<Frame>)
    returns (look: Look)
    requires off + 3 <= |d| && count < out.Length && cap > 0
    requires Accounted(out[..count], d[off..], cap, all)
    modifies out
    ensures match look
            case Stop => unchanged(out) && out[..count] == all
            case Skip => unchanged(out) && Accounted(out[..count], d[off + 1..], cap, all)
            case Take(wire) =>
              0 < wire && off + wire <= |d| && Accounted(out[..count + 1], d[off + wire..], cap - 1, all)
    ensures forall i :: count < i < out.Length ==> out[i] == old(out[i])
  {
    hide Found;
    look := Examine(d, off);
    match look {
      case Stop => NothingLeft(out[..count], d[off..], cap, all);
      case Skip => SkipOne(out[..count], d, off, cap, all);
      case Take(_) => Record(d, off, out, count, cap, all);
    }
  }

  method ScanLoop(bytes: seq<byte>, out: array<Frame>, outCap: nat) returns (count: nat)
    requires outCap <= out.Length
    modifies out
    ensures count <= outCap
    ensures forall i :: count <= i < out.Length ==> out[i] == old(out[i])
    ensures out[..count] == Found(bytes, outCap)
  {
    hide Found;
    count := 0;
    var off := 0;
    ghost var all := Found(bytes, outCap);
    assert bytes[0..] == bytes;
    while off + 3 <= |bytes| && count < outCap
      invariant off <= |bytes| && count <= outCap
      invariant forall i :: count <= i < out.Length ==> out[i] == old(out[i])
      invariant Accounted(out[..count], bytes[off..], outCap - count, all)
      decreases |bytes| - off
    {
      var look := ScanStep(bytes, off, out, count, outCap - count, all);
      match look {
        case Stop =>
          return;
        case Skip =>
          off := off + 1;
        case Take(wire) =>
          count, off := count + 1, off + wire;
      }
    }
    NothingLeft(out[..count], bytes[off..], outCap - count, all);
  }

  /** The header and length checks at one offset. */
  method Examine(data: seq<byte>, off: nat) returns (look: Look)
    requires off + 3 <= |data|
    ensures look == LookAt(data[off..])
  {
    var len := |data|;
    if data[off] != MAGIC_LOW || data[off + 1] != MAGIC_HIGH {
      return Skip;
    }
    var tag := data[off + 2];
    if tag != 1 && tag != 2 && tag != 4 {
      return Skip;
    }
    var hdr := 3 + tag as nat;
    if off + hdr > len {
      return Stop;
    }
    assert data[off..][3..] == data[off + 3..];
    var payloadLen := ReadLengthLe(data[off + 3..], tag);
    var wire := 2 + 1 + tag as nat + payloadLen;
    if off + wire > len {
      return Stop;
    }
    return Take(wire);
  }

  function TrailingUnparsed(len: nat, parsedWire: nat): nat {
    if parsedWire >= len then 0 else len - parsedWire
  }

  /** What the trace reports about one chunk: its first frames, and all the bytes they leave over. */
  method LogChunk(data: array<byte>, len: nat) returns (frames: seq<Frame>, incomplete: nat)
    requires len <= data.Length
    ensures var p := ParseUpTo(data[..len], MAX_FRAMES_PER_LINE);
            && frames == Frames(p.segments)
            && WireSum(frames) + incomplete == len
            && incomplete == NoiseCount(p.segments) + |p.rest|
  {
    Conservation(data[..len], MAX_FRAMES_PER_LINE);
    var out := new Frame[MAX_FRAMES_PER_LINE](i => Frame(0, 0, Summary(0, 0, false, 0)));
    var count := ScanFrames(data, len, out, MAX_FRAMES_PER_LINE);
    frames := out[..count];
    var parsedWire := 0;
    var i := 0;
    while i < count
      invariant 0 <= i <= count
      invariant parsedWire + WireSum(frames[i..]) == WireSum(frames)
    {
      assert frames[i..][1..] == frames[i + 1..];
      parsedWire := parsedWire + out[i].wireBytes;
      i := i + 1;
    }
    incomplete := TrailingUnparsed(len, parsedWire);
  }
}
