/**
 * The growable byte buffer: its capacity policy, the in-place resize used for the
 * staging buffers, the copying resize and the append used for received data.
 */
module Growable {
  import opened Bytes

  datatype GrowError = NegativeSize | OutOfMemory
  datatype GrowResult = Done | Thrown(error: GrowError)

  /** The room left above the requested size; None for a growth mode the buffer rejects. */
  function Slack(size: nat, mode: int): (r: Option<nat>)
    ensures r.Some? <==> 0 <= mode <= 2
    ensures mode == 1 ==> r.Some? && size < 8 * (r.value + 1)
    ensures mode == 0 && size <= 0x8000 ==> r.Some? && size < 32 * (r.value + 1)
    ensures mode == 2 ==> r == Some(0)
  {
    if mode == 0 then
      var slack := size / 8;
      Some(if slack < 1024 then (if slack <= 4 then 4 else slack) else 1024)
    else if mode == 1 then
      var slack := size / 8;
      Some(if slack <= 64 then 64 else slack)
    else if mode == 2 then
      Some(0)
    else
      None
  }

  function CalcCapacity(size: nat, mode: int, minCap: int, need: int): (r: Option<int>)
    ensures r.Some? <==> 0 <= mode <= 2
    ensures r.Some? ==> r.value >= need && r.value >= minCap
  {
    match Slack(size, mode)
    case None => None
    case Some(slack) => Some(Max(need + slack, minCap))
  }

  /**
   * The spare room: an eighth of the size, rounded down; in mode 0 at least 4 and at most 1024, in mode 1
   * at least 64; none in mode 2.
   */
  lemma SlackIs(size: nat, mode: int, r: nat)
    requires Slack(size, mode) == Some(r)
    ensures mode == 0 ==> if size < 40 then r == 4 else if size >= 8192 then r == 1024 else 8 * r <= size < 8 * r + 8
    ensures mode == 1 ==> if size < 520 then r == 64 else 8 * r <= size < 8 * r + 8
    ensures mode == 2 ==> r == 0
  {
  }

  /** A new capacity is the least that holds the request with the spare room of the old size, and the minimum. */
  lemma CapacityIsLeast(size: nat, mode: int, minCap: int, need: int, other: int)
    requires 0 <= mode <= 2
    ensures var c, slack := CalcCapacity(size, mode, minCap, need).value, Slack(size, mode).value;
            c >= need + slack && c >= minCap && (other >= need + slack && other >= minCap ==> other >= c)
  {
  }

  // ---- Sizes and capacities only: what a run of resize requests does and costs ----

  /** The bookkeeping fields of a buffer. */
  datatype Shape = Shape(size: nat, capacity: nat, mode: int, minCap: int) {
    ghost predicate Sound() {
      size <= capacity
    }
  }

  /** A resize request together with the heap's answer. */
  datatype Request = Request(newSize: int, allocOk: bool)

  function Verdict(s: Shape, q: Request): GrowResult {
    if q.newSize < 0 then Thrown(NegativeSize)
    else if q.newSize == s.size || q.newSize <= s.capacity then Done
    else if CalcCapacity(s.size, s.mode, s.minCap, q.newSize).None? then Thrown(NegativeSize)
    else if !q.allocOk then Thrown(OutOfMemory)
    else Done
  }

  function Resize(s: Shape, q: Request): (r: Shape)
    requires s.Sound()
    ensures r.Sound() && r.capacity >= s.capacity
    ensures r.mode == s.mode && r.minCap == s.minCap
  {
    if Verdict(s, q) != Done then s
    else if q.newSize <= s.capacity then s.(size := q.newSize)
    else s.(size := q.newSize, capacity := CalcCapacity(s.size, s.mode, s.minCap, q.newSize).value)
  }

  /**
   * A resize throws exactly for a negative size, or if the buffer must grow and its mode is none or there
   * is no memory; it then changes nothing. Otherwise the size is as asked, and a new block is made only
   * where the old one is too small.
   */
  lemma ResizeAnswers(s: Shape, q: Request)
    requires s.Sound()
    ensures Verdict(s, q).Thrown? <==>
              q.newSize < 0 || (q.newSize > s.capacity && (!(0 <= s.mode <= 2) || !q.allocOk))
    ensures Verdict(s, q) == Thrown(OutOfMemory) <==> q.newSize > s.capacity && 0 <= s.mode <= 2 && !q.allocOk
    ensures Verdict(s, q).Thrown? ==> Resize(s, q) == s
    ensures Verdict(s, q).Done? ==>
              var r := Resize(s, q);
              && r.size == q.newSize && r.mode == s.mode && r.minCap == s.minCap
              && (if q.newSize <= s.capacity then r.capacity == s.capacity
                  else r.capacity == CalcCapacity(s.size, s.mode, s.minCap, q.newSize).value)
              && (q.newSize > s.capacity > 0 ==> CopyCost(s, q) == s.size)
    ensures Verdict(s, q).Thrown? || q.newSize <= s.capacity || s.capacity == 0 ==> CopyCost(s, q) == 0
  {
  }

  /** Bytes the copying resize moves: the old contents, whenever an existing block is replaced. */
  function CopyCost(s: Shape, q: Request): nat
    requires s.Sound()
  {
    if Resize(s, q).capacity > s.capacity && s.capacity > 0 then s.size else 0
  }

  function ResizeAll(s: Shape, qs: seq<Request>): (r: Shape)
    requires s.Sound()
    ensures r.Sound()
    ensures r.mode == s.mode && r.minCap == s.minCap
    decreases |qs|
  {
    if qs == [] then s else ResizeAll(Resize(s, qs[0]), qs[1..])
  }

  function CopiedOver(s: Shape, qs: seq<Request>): nat
    requires s.Sound()
    decreases |qs|
  {
    if qs == [] then 0 else CopyCost(s, qs[0]) + CopiedOver(Resize(s, qs[0]), qs[1..])
  }

  /** Growth mode 1: whatever the run, each block replaced is paid for by eight times the growth. */
  lemma {:induction false} AmortisedMode1(s: Shape, qs: seq<Request>)
    requires s.Sound() && s.mode == 1
    ensures CopiedOver(s, qs) <= 8 * (ResizeAll(s, qs).capacity - s.capacity)
    decreases |qs|
  {
    if qs != [] {
      AmortisedMode1(Resize(s, qs[0]), qs[1..]);
    }
  }

  /** Growth mode 0: the same with a factor 32, as long as no request passes the receive cap. */
  lemma {:induction false} AmortisedMode0(s: Shape, qs: seq<Request>)
    requires s.Sound() && s.mode == 0 && s.size <= 0x8000
    requires forall q <- qs :: q.newSize <= 0x8000
    ensures CopiedOver(s, qs) <= 32 * (ResizeAll(s, qs).capacity - s.capacity)
    decreases |qs|
  {
    if qs != [] {
      AmortisedMode0(Resize(s, qs[0]), qs[1..]);
    }
  }

  function Sum(lens: seq<nat>): nat {
    if lens == [] then 0 else lens[0] + Sum(lens[1..])
  }

  /** The requests a sequence of appends makes of a buffer that holds `size` bytes. */
  function AppendRequests(size: nat, lens: seq<nat>): seq<Request>
    decreases |lens|
  {
    if lens == [] then [] else [Request(size + lens[0], true)] + AppendRequests(size + lens[0], lens[1..])
  }

  lemma {:induction false} AppendsStayBelow(size: nat, lens: seq<nat>, bound: nat)
    requires size + Sum(lens) <= bound
    ensures forall q <- AppendRequests(size, lens) :: q.newSize <= bound
    decreases |lens|
  {
    if lens != [] {
      AppendsStayBelow(size + lens[0], lens[1..], bound);
    }
  }

  /** A buffer's bookkeeping together with the bytes it has copied so far. */
  datatype Ledger = Ledger(shape: Shape, copied: nat)

  /** After appending `len` bytes. */
  function Grown(l: Ledger, len: nat): (g: Ledger)
    requires l.shape.Sound()
    ensures g.shape.Sound()
  {
    var q := Request(l.shape.size + len, true);
    if len == 0 then l else Ledger(Resize(l.shape, q), l.copied + CopyCost(l.shape, q))
  }

  function GrownAll(l: Ledger, lens: seq<nat>): (g: Ledger)
    requires l.shape.Sound()
    ensures g.shape.Sound()
    decreases |lens|
  {
    if lens == [] then l else GrownAll(Grown(l, lens[0]), lens[1..])
  }

  lemma {:induction false} AppendsCost(l: Ledger, lens: seq<nat>)
    requires l.shape.Sound() && 0 <= l.shape.mode <= 2
    ensures var qs := AppendRequests(l.shape.size, lens);
            GrownAll(l, lens) == Ledger(ResizeAll(l.shape, qs), l.copied + CopiedOver(l.shape, qs))
    decreases |lens|
  {
    if lens != [] {
      AppendsCost(Grown(l, lens[0]), lens[1..]);
      var q := Request(l.shape.size + lens[0], true);
      assert AppendRequests(l.shape.size, lens)[1..] == AppendRequests(q.newSize, lens[1..]);
      assert Grown(l, lens[0]).shape == Resize(l.shape, q);
    }
  }

  /** Requests of a buffer that grows one byte at a time from size `n` to `m`. */
  function OneByOne(n: nat, m: nat): (qs: seq<Request>)
    requires n <= m
    decreases m - n
  {
    if n == m then [] else [Request(n + 1, true)] + OneByOne(n + 1, m)
  }

  /** Growth mode 2 has no such bound: growing byte by byte copies quadratically much. */
  lemma {:induction false} Mode2IsQuadratic(n: nat, m: nat)
    requires n <= m
    ensures 2 * CopiedOver(Shape(n, n, 2, 0), OneByOne(n, m)) == m * (m - 1) - n * (n - 1)
    ensures ResizeAll(Shape(n, n, 2, 0), OneByOne(n, m)) == Shape(m, m, 2, 0)
    decreases m - n
  {
    if n < m {
      Mode2IsQuadratic(n + 1, m);
      assert (n + 1) * n == n * (n - 1) + 2 * n;
      var qs := OneByOne(n, m);
      assert qs[0] == Request(n + 1, true) && qs[1..] == OneByOne(n + 1, m);
      assert CopiedOver(Shape(n, n, 2, 0), qs) == n + CopiedOver(Shape(n + 1, n + 1, 2, 0), qs[1..]);
    }
  }

  /** Where a full buffer of `c` bytes is full again once it was asked for one byte more. */
  function NextFull(c: nat, mode: int): (d: nat)
    requires 0 <= mode <= 2
    ensures d > c && (mode != 1 ==> d <= c + 1025)
  {
    c + 1 + Slack(c, mode).value
  }

  /** `m` times: overfill a full buffer of `c` bytes by one byte and fill it up again. */
  function Overfill(c: nat, mode: int, m: nat): seq<Request>
    requires 0 <= mode <= 2
    decreases m
  {
    if m == 0 then []
    else [Request(c + 1, true), Request(NextFull(c, mode), true)] + Overfill(NextFull(c, mode), mode, m - 1)
  }

  /** Ask for `n` bytes where they do not fit, then for all there is room for. */
  lemma FillUp(s: Shape, n: nat, d: nat, more: seq<Request>)
    requires s.Sound() && 0 <= s.mode <= 2 && s.capacity < n && d == CalcCapacity(s.size, s.mode, s.minCap, n).value
    ensures var full, qs := Shape(d, d, s.mode, s.minCap), [Request(n, true), Request(d, true)] + more;
            && CopiedOver(s, qs) == (if s.capacity > 0 then s.size else 0) + CopiedOver(full, more)
            && ResizeAll(s, qs) == ResizeAll(full, more)
  {
    var qs := [Request(n, true), Request(d, true)] + more;
    assert qs[0] == Request(n, true) && qs[1..][0] == Request(d, true) && qs[1..][1..] == more;
    assert Resize(s, qs[0]) == Shape(n, d, s.mode, s.minCap);
  }

  /** In modes 0 and 2 each round copies at least `b` bytes and adds at most 1025 to the capacity. */
  lemma {:induction false} OverfillCost(b: nat, c: nat, mode: int, minCap: int, m: nat)
    requires mode == 0 || mode == 2
    requires c > 0 && c >= minCap && c >= b
    ensures CopiedOver(Shape(c, c, mode, minCap), Overfill(c, mode, m)) >= m * b
    ensures ResizeAll(Shape(c, c, mode, minCap), Overfill(c, mode, m)).capacity <= c + 1025 * m
    decreases m
  {
    hide CopiedOver;
    hide ResizeAll;
    if m == 0 {
      RunNothing(Shape(c, c, mode, minCap));
    } else {
      var d := NextFull(c, mode);
      OverfillCost(b, d, mode, minCap, m - 1);
      FillUp(Shape(c, c, mode, minCap), c + 1, d, Overfill(d, mode, m - 1));
      OneMore(m - 1, b);
    }
  }

  lemma OneMore(n: nat, b: nat)
    ensures (n + 1) * b == n * b + b
  {
  }

  lemma RunNothing(s: Shape)
    requires s.Sound()
    ensures CopiedOver(s, []) == 0 && ResizeAll(s, []) == s
  {
  }

  /** In those modes some run from the empty buffer costs more than `k` times its final capacity. */
  lemma CostlyRun(mode: int, minCap: int, k: nat) returns (qs: seq<Request>)
    requires mode == 0 || mode == 2
    ensures CopiedOver(Shape(0, 0, mode, minCap), qs) > k * ResizeAll(Shape(0, 0, mode, minCap), qs).capacity
  {
    hide CopiedOver;
    hide ResizeAll;
    var m, c := k + 1, 1025 * k * (k + 1) + 1;
    var d: nat := CalcCapacity(0, mode, minCap, c).value;
    var rounds := Overfill(d, mode, m);
    qs := [Request(c, true), Request(d, true)] + rounds;
    FillUp(Shape(0, 0, mode, minCap), c, d, rounds);
    OverfillCost(d, d, mode, minCap, m);
    Outweighs(k, d, CopiedOver(Shape(0, 0, mode, minCap), qs), ResizeAll(Shape(0, 0, mode, minCap), qs).capacity);
  }

  lemma Outweighs(k: nat, d: nat, cost: int, capacity: int)
    requires cost >= (k + 1) * d && capacity <= d + 1025 * (k + 1) && d > 1025 * k * (k + 1)
    ensures cost > k * capacity
  {
    assert k * capacity <= k * (d + 1025 * (k + 1));
  }

  /** Copying is at most `k` times the final capacity in every run from the empty buffer. */
  ghost predicate Linear(mode: int, minCap: int, k: nat) {
    forall qs: seq<Request> ::
      CopiedOver(Shape(0, 0, mode, minCap), qs) <= k * ResizeAll(Shape(0, 0, mode, minCap), qs).capacity
  }

  /** Of the three growth modes exactly mode 1 has a constant that bounds the copying of every run. */
  lemma LinearIffMode1(mode: int, minCap: int)
    requires 0 <= mode <= 2
    ensures (exists k: nat :: Linear(mode, minCap, k)) <==> mode == 1
  {
    hide CopiedOver;
    hide ResizeAll;
    if mode == 1 {
      forall qs: seq<Request> {
        AmortisedMode1(Shape(0, 0, mode, minCap), qs);
      }
      assert Linear(mode, minCap, 8);
    } else {
      forall k: nat ensures !Linear(mode, minCap, k) {
        var qs := CostlyRun(mode, minCap, k);
      }
    }
  }

  // ---- The buffer itself ----

  class GrowableBuffer {
    var data: array?<byte>
    var size: nat
    var capacity: nat
    const minCapacity: int
    const growthMode: int
    ghost var copied: nat  // bytes moved so far by the copying resize

    ghost predicate Valid()
      reads this
    {
      && size <= capacity
      && (capacity == 0 ==> data == null)
      && (capacity > 0 ==> data != null && data.Length == capacity)
    }

    ghost function Contents(): (c: seq<byte>)
      requires Valid()
      reads this, data
      ensures |c| == size
    {
      if data == null then [] else data[..size]
    }

    ghost function GetShape(): Shape
      reads this
    {
      Shape(size, capacity, growthMode, minCapacity)
    }

    ghost function GetLedger(): Ledger
      reads this
    {
      Ledger(GetShape(), copied)
    }

    constructor (mode: int, minCap: int)
      ensures Valid() && Contents() == [] && copied == 0 && data == null
      ensures GetShape() == Shape(0, 0, mode, minCap)
    {
      data, size, capacity, copied := null, 0, 0, 0;
      growthMode, minCapacity := mode, minCap;
    }

    /** Resize keeping the block where possible; a larger block keeps the bytes of the old one. */
    method EnsureSize(newSize: int, allocOk: bool) returns (r: GrowResult)
      requires Valid()
      modifies this
      ensures Valid() && copied == old(copied)
      ensures r == Verdict(old(GetShape()), Request(newSize, allocOk))
      ensures GetShape() == Resize(old(GetShape()), Request(newSize, allocOk))
      ensures data == old(data) || fresh(data)
      ensures r.Done? ==> Contents()[..Min(newSize, old(size))] == old(Contents())[..Min(newSize, old(size))]
      ensures r.Thrown? ==> unchanged(this)
    {
      if newSize < 0 {
        return Thrown(NegativeSize);
      }
      if newSize == size {
        return Done;
      }
      if newSize <= capacity {
        size := newSize;
        return Done;
      }
      var newCap := CalcCapacity(size, growthMode, minCapacity, newSize);
      if newCap.None? {
        return Thrown(NegativeSize);
      }
      if !allocOk {
        return Thrown(OutOfMemory);
      }
      var block := new byte[newCap.value];
      if capacity != 0 {
        var i := 0;
        while i < capacity
          modifies block
          invariant 0 <= i <= capacity
          invariant block[..i] == data[..i]
        {
          block[i] := data[i];
          i := i + 1;
        }
        assert block[..size] == block[..capacity][..size];
      }
      data, capacity, size := block, newCap.value, newSize;
      return Done;
    }

    /** Resize that moves only the live bytes, one by one, into a new block. */
    method EnsureCapacityCopy(newSize: int, allocOk: bool) returns (r: GrowResult)
      requires Valid()
      modifies this
      ensures Valid()
      ensures r == Verdict(old(GetShape()), Request(newSize, allocOk))
      ensures GetShape() == Resize(old(GetShape()), Request(newSize, allocOk))
      ensures copied == old(copied) + CopyCost(old(GetShape()), Request(newSize, allocOk))
      ensures data == old(data) || fresh(data)
      ensures r.Done? ==> Contents()[..Min(newSize, old(size))] == old(Contents())[..Min(newSize, old(size))]
      ensures r.Thrown? ==> unchanged(this)
    {
      if newSize < 0 {
        return Thrown(NegativeSize);
      }
      if newSize == size {
        return Done;
      }
      if newSize > capacity {
        var newCap := CalcCapacity(size, growthMode, minCapacity, newSize);
        if newCap.None? {
          return Thrown(NegativeSize);
        }
        if !allocOk {
          return Thrown(OutOfMemory);
        }
        var block := new byte[newCap.value];
        if capacity == 0 {
          data, capacity, size := block, newCap.value, newSize;
          return Done;
        }
        var i := 0;
        while i < size
          modifies block, `copied
          invariant 0 <= i <= size
          invariant block[..i] == data[..i]
          invariant copied == old(copied) + i
        {
          block[i] := data[i];
          copied := copied + 1;
          i := i + 1;
        }
        data, capacity := block, newCap.value;
      }
      size := newSize;
      return Done;
    }

    /** Appending concatenates, in every growth mode and across every reallocation. */
    method Append(src: array<byte>, len: int, allocOk: bool) returns (r: GrowResult)
      requires Valid() && src != data
      requires len <= src.Length
      modifies this, data
      ensures Valid()
      ensures data == old(data) || fresh(data)
      ensures r == if len == 0 then Done
                   else if len < 0 then Thrown(NegativeSize)
                   else Verdict(old(GetShape()), Request(old(size) + len, allocOk))
      ensures r.Done? ==> Contents() == old(Contents()) + src[..len]
      ensures r.Done? && len > 0 ==>
                && GetShape() == Resize(old(GetShape()), Request(old(size) + len, allocOk))
                && copied == old(copied) + CopyCost(old(GetShape()), Request(old(size) + len, allocOk))
      ensures r.Thrown? || len == 0 ==> unchanged(this) && (data != null ==> unchanged(data))
    {
      if len < 0 {
        return Thrown(NegativeSize);
      }
      if len == 0 {
        return Done;
      }
      var curSize := size;
      r := EnsureCapacityCopy(curSize + len, allocOk);
      if r.Thrown? {
        return;
      }
      CopyIn(curSize, src, len);
    }

    /** The copy loop of Append: overwrites from `at` on, leaves what is before. */
    method CopyIn(at: nat, src: array<byte>, len: nat)
      requires Valid() && data != null && src != data && len <= src.Length && at + len == size
      modifies data
      ensures Contents() == old(Contents()[..at]) + src[..len]
    {
      var i := 0;
      while i < len
        modifies data
        invariant 0 <= i <= len
        invariant data[..at] == old(data[..at])
        invariant data[at..at + i] == src[..i]
      {
        data[at + i] := src[i];
        i := i + 1;
      }
      assert Contents() == data[..at] + data[at..at + len];
      assert old(Contents()[..at]) == old(data[..at]);
    }
  }
}
