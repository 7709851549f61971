/** The command pipe's reader: chunks pile up in a fixed buffer and are cut into lines in place. */
module HandlerPipe {
  import opened Bytes

  const PENDING_SIZE := 8192
  const NL: byte := 10
  const CR: byte := 13

  // ---- Lines of a byte string ----

  function Find(s: seq<byte>, c: byte): (p: nat)
    ensures p <= |s| && c !in s[..p]
    ensures p < |s| ==> s[p] == c
  {
    if s == [] || s[0] == c then 0
    else
      assert forall p: nat :: p <= |s| - 1 ==> s[..p + 1] == [s[0]] + s[1..][..p];
      1 + Find(s[1..], c)
  }

  /** The complete lines, without their newlines. */
  function Lines(s: seq<byte>): (lines: seq<seq<byte>>)
    decreases |s|
  {
    var p := Find(s, NL);
    if p == |s| then [] else [s[..p]] + Lines(s[p + 1..])
  }

  /** What is left after the last newline. */
  function Tail(s: seq<byte>): (t: seq<byte>)
    ensures NL !in t
    decreases |s|
  {
    var p := Find(s, NL);
    if p == |s| then s else Tail(s[p + 1..])
  }

  /** A line as it is handed on: up to its first carriage return. */
  function Trimmed(line: seq<byte>): seq<byte> {
    line[..Find(line, CR)]
  }

  function TrimmedAll(lines: seq<seq<byte>>): seq<seq<byte>> {
    if lines == [] then [] else [Trimmed(lines[0])] + TrimmedAll(lines[1..])
  }

  lemma FindUnique(s: seq<byte>, c: byte, p: nat)
    requires p <= |s| && c !in s[..p] && (p < |s| ==> s[p] == c)
    ensures Find(s, c) == p
  {
  }

  /** Splitting a string, then its tail with what follows, is splitting both at once. */
  lemma {:induction false} SplitContinues(a: seq<byte>, b: seq<byte>)
    ensures Lines(a + b) == Lines(a) + Lines(Tail(a) + b)
    ensures Tail(a + b) == Tail(Tail(a) + b)
    decreases |a|
  {
    hide Lines;
    hide Tail;
    var p := Find(a, NL);
    if p < |a| {
      assert (a + b)[..p] == a[..p] && (a + b)[p + 1..] == a[p + 1..] + b;
      FindUnique(a + b, NL, p);
      SplitContinues(a[p + 1..], b);
      LinesUnfold(a);
      LinesUnfold(a + b);
      Regroup([a[..p]], Lines(a[p + 1..]), Lines(Tail(a) + b));
    } else {
      NoLine(a, 0, []);
      assert a[0..] == a && [] + Lines(a) == Lines(a) && [] + Lines(a + b) == Lines(a + b);
    }
  }

  /** Every line with its newline back. */
  function Unsplit(lines: seq<seq<byte>>): seq<byte> {
    if lines == [] then [] else lines[0] + [NL] + Unsplit(lines[1..])
  }

  /** The lines and the tail are the input cut at its newlines, every one of them and nothing else. */
  lemma {:induction false} LinesAreInput(s: seq<byte>)
    ensures Unsplit(Lines(s)) + Tail(s) == s
    ensures forall line <- Lines(s) :: 10 !in line
    ensures 10 !in Tail(s)
    decreases |s|
  {
    hide Lines;
    hide Tail;
    hide Find;
    hide Unsplit;
    var p := Find(s, NL);
    if p < |s| {
      var first, rest := s[..p], s[p + 1..];
      LinesAreInput(rest);
      LinesUnfold(s);
      UnsplitMore(first, Lines(rest));
      assert s == (first + [NL]) + rest;
      Regroup(first + [NL], Unsplit(Lines(rest)), Tail(rest));
    } else {
      NothingToSplit(s);
      UnsplitNothing();
      assert [] + s == s;
    }
  }

  lemma UnsplitMore(first: seq<byte>, more: seq<seq<byte>>)
    ensures Unsplit([first] + more) == first + [NL] + Unsplit(more)
  {
    assert ([first] + more)[1..] == more;
  }

  lemma UnsplitNothing()
    ensures Unsplit([]) == []
  {
  }

  /** No other cut is: lines free of newlines and a tail free of newlines are read off their own text. */
  lemma {:induction false} LinesUnique(lines: seq<seq<byte>>, tail: seq<byte>)
    requires (forall line <- lines :: NL !in line) && NL !in tail
    ensures Lines(Unsplit(lines) + tail) == lines && Tail(Unsplit(lines) + tail) == tail
  {
    hide Lines;
    hide Tail;
    hide Find;
    hide Unsplit;
    if lines == [] {
      UnsplitNothing();
      assert [] + tail == tail;
      NothingToSplit(tail);
    } else {
      var s, rest := Unsplit(lines) + tail, Unsplit(lines[1..]) + tail;
      var p := |lines[0]|;
      assert lines[0] in lines && lines == [lines[0]] + lines[1..];
      UnsplitMore(lines[0], lines[1..]);
      Regroup(lines[0] + [NL], Unsplit(lines[1..]), tail);
      assert s == (lines[0] + [NL]) + rest && s[..p] == lines[0] && s[p] == NL && s[p + 1..] == rest;
      FindUnique(s, NL, p);
      LinesUnfold(s);
      LinesUnique(lines[1..], tail);
    }
  }

  /** A line is handed on as its bytes before the first carriage return, all of them if there is none. */
  lemma TrimmedMeans(line: seq<byte>)
    ensures 13 !in Trimmed(line)
    ensures if 13 in line then Trimmed(line) + [13] <= line else Trimmed(line) == line
  {
    var p := Find(line, CR);
    if p < |line| {
      assert Trimmed(line) + [13] == line[..p + 1];
    } else {
      assert line[..p] == line;
    }
  }

  lemma {:induction false} TrimmedConcat(a: seq<seq<byte>>, b: seq<seq<byte>>)
    ensures TrimmedAll(a + b) == TrimmedAll(a) + TrimmedAll(b)
  {
    if a == [] {
      assert a + b == b;
    } else {
      assert (a + b)[0] == a[0] && (a + b)[1..] == a[1..] + b;
      TrimmedConcat(a[1..], b);
    }
  }

  /** The lines handed on over a connection: each call adds its chunks to what the last one left. */
  function Session(pending: seq<byte>, calls: seq<seq<byte>>): seq<seq<byte>>
    decreases |calls|
  {
    if calls == [] then []
    else TrimmedAll(Lines(pending + calls[0])) + Session(Tail(pending + calls[0]), calls[1..])
  }

  function LeftOver(pending: seq<byte>, calls: seq<seq<byte>>): seq<byte>
    decreases |calls|
  {
    if calls == [] then pending else LeftOver(Tail(pending + calls[0]), calls[1..])
  }

  /** However the input is cut into reads, the lines and the tail are those of the whole input. */
  lemma {:induction false} ChunkingIrrelevant(pending: seq<byte>, calls: seq<seq<byte>>)
    requires NL !in pending
    ensures Session(pending, calls) == TrimmedAll(Lines(pending + Joined(calls)))
    ensures LeftOver(pending, calls) == Tail(pending + Joined(calls))
    decreases |calls|
  {
    if calls == [] {
      assert pending + [] == pending;
      NothingToSplit(pending);
    } else {
      var a, b := pending + calls[0], Joined(calls[1..]);
      assert pending + Joined(calls) == a + b;
      SplitContinues(a, b);
      ChunkingIrrelevant(Tail(a), calls[1..]);
      TrimmedConcat(Lines(a), Lines(Tail(a) + b));
    }
  }

  // ---- The buffer ----

  /** Input the reader is specified for: no NUL, which would end a line early. */
  predicate NulFree(s: seq<byte>) {
    0 !in s
  }

  /** The bytes of a connection that delivers them in calls of several chunks each. */
  function JoinedAll(calls: seq<seq<seq<byte>>>): seq<byte> {
    if calls == [] then [] else Joined(calls[0]) + JoinedAll(calls[1..])
  }

  /** At each call what is pending and what arrives fit the buffer, and no NUL arrives. */
  ghost predicate FitsAll(pending: seq<byte>, calls: seq<seq<seq<byte>>>)
    decreases |calls|
  {
    calls != [] ==>
      && NulFree(Joined(calls[0])) && |pending| + |Joined(calls[0])| < PENDING_SIZE
      && FitsAll(Tail(pending + Joined(calls[0])), calls[1..])
  }

  lemma NothingToSplit(pending: seq<byte>)
    requires NL !in pending
    ensures Lines(pending) == [] && Tail(pending) == pending && TrimmedAll([]) == []
  {
    assert pending[..|pending|] == pending;
    FindUnique(pending, NL, |pending|);
  }

  class PipeReader {
    const buf: array<byte>
    var len: nat
    var dispatched: seq<seq<byte>>

    /** Between calls: room for one more byte, a NUL at the very end, and no newline anywhere. */
    ghost predicate Valid()
      reads this, buf
    {
      && buf.Length == PENDING_SIZE && len < PENDING_SIZE
      && buf[PENDING_SIZE - 1] == 0
      && NulFree(buf[..len])
      && NL !in buf[..]
    }

    ghost function Pending(): seq<byte>
      requires len <= buf.Length
      reads this, buf
    {
      buf[..len]
    }

    constructor ()
      ensures Valid() && Pending() == [] && dispatched == [] && fresh(buf)
    {
      buf := new byte[PENDING_SIZE](i => 0);
      len, dispatched := 0, [];
    }

    /** strchr: the first `c` from `start` on, unless a NUL comes first. Never leaves the buffer. */
    method StrChr(start: nat, c: byte) returns (p: Option<nat>)
      requires buf.Length == PENDING_SIZE && start < PENDING_SIZE && buf[PENDING_SIZE - 1] == 0 && c != 0
      ensures p.Some? ==> start <= p.value < PENDING_SIZE - 1 && buf[p.value] == c
      ensures p.Some? ==> forall i :: start <= i < p.value ==> buf[i] != c && buf[i] != 0
      ensures p.None? ==> exists e: nat :: StringEnds(start, e) && forall i :: start <= i < e ==> buf[i] != c
    {
      var i := start;
      while buf[i] != 0
        invariant start <= i < PENDING_SIZE
        invariant forall k :: start <= k < i ==> buf[k] != c && buf[k] != 0
        decreases PENDING_SIZE - i
      {
        if buf[i] == c {
          return Some(i);
        }
        i := i + 1;
      }
      assert StringEnds(start, i);
      return None;
    }

    /** The C string starting at `start` ends at `e`. */
    ghost predicate StringEnds(start: nat, e: nat)
      requires buf.Length == PENDING_SIZE
      reads buf
    {
      start <= e < PENDING_SIZE && buf[e] == 0 && forall i :: start <= i < e ==> buf[i] != 0
    }

    /** Cut the line at its carriage return and hand it on. */
    method ConsumeLine(start: nat, nl: nat)
      requires buf.Length == PENDING_SIZE && buf[PENDING_SIZE - 1] == 0 && StringEnds(start, nl)
      modifies this`dispatched, buf
      ensures dispatched == old(dispatched) + [Trimmed(old(buf[start..nl]))]
      ensures forall i :: 0 <= i < PENDING_SIZE ==> buf[i] == old(buf[i]) || (start <= i < nl && buf[i] == 0)
    {
      ghost var line := buf[start..nl];
      assert forall i :: 0 <= i < |line| ==> line[i] == buf[start + i];
      var cr := StrChr(start, CR);
      var e := if cr.Some? then cr.value else nl;
      assert e <= nl && forall i :: start <= i < e ==> buf[i] != CR;
      assert forall i :: 0 <= i < e - start ==> line[i] != CR;
      FindUnique(line, CR, e - start);
      if cr.Some? {
        buf[cr.value] := 0;
      }
      assert forall i :: 0 <= i < e - start ==> buf[start + i] == line[i];
      assert buf[start..e] == line[..e - start];
      dispatched := dispatched + [buf[start..e]];
    }

    /** Copy the chunks behind what is pending. */
    method Accept(chunks: seq<seq<byte>>)
      requires Valid() && len + |Joined(chunks)| < PENDING_SIZE
      modifies this`len, buf
      ensures len == old(len) + |Joined(chunks)|
      ensures buf[..len] == old(buf[..len]) + Joined(chunks)
      ensures forall i :: len <= i < PENDING_SIZE ==> buf[i] == old(buf[i])
    {
      var k := 0;
      assert old(buf[..len]) + Joined(chunks) == buf[..len] + Joined(chunks);
      while k < |chunks|
        invariant 0 <= k <= |chunks|
        invariant len + |Joined(chunks[k..])| == old(len) + |Joined(chunks)|
        invariant buf[..len] + Joined(chunks[k..]) == old(buf[..len]) + Joined(chunks)
        invariant forall i :: len <= i < PENDING_SIZE ==> buf[i] == old(buf[i])
      {
        assert chunks[k..][1..] == chunks[k + 1..];
        Regroup(buf[..len], chunks[k], Joined(chunks[k + 1..]));
        Append(chunks[k]);
        k := k + 1;
      }
    }

    /** The split loop: every line of `input` behind `start` is handed on, its newline replaced. */
    method SplitLines(ghost input: seq<byte>) returns (start: nat)
      requires buf.Length == PENDING_SIZE && |input| < PENDING_SIZE && buf[PENDING_SIZE - 1] == 0
      requires NulFree(input) && buf[..|input|] == input
      requires forall i :: |input| <= i < PENDING_SIZE ==> buf[i] != NL
      modifies this`dispatched, buf
      ensures start <= |input| && input[start..] == Tail(input)
      ensures dispatched == old(dispatched) + TrimmedAll(Lines(input))
      ensures forall i :: start <= i < |input| ==> buf[i] == input[i]
      ensures forall i :: 0 <= i < PENDING_SIZE ==> buf[i] != NL
      ensures forall i :: |input| <= i < PENDING_SIZE ==> buf[i] == old(buf[i])
    {
      hide Lines;
      hide Tail;
      hide TrimmedAll;
      hide Trimmed;
      hide Find;
      start := 0;
      ghost var n := |input|;
      ghost var done := [];
      assert input[0..] == input;
      NothingTrimmed();
      while true
        invariant start <= n && buf[PENDING_SIZE - 1] == 0
        invariant forall i :: start <= i < n ==> buf[i] == input[i]
        invariant forall i :: 0 <= i < start ==> buf[i] != NL
        invariant forall i :: n <= i < PENDING_SIZE ==> buf[i] == old(buf[i])
        invariant dispatched == old(dispatched) + TrimmedAll(done)
        invariant done + Lines(input[start..]) == Lines(input)
        invariant Tail(input[start..]) == Tail(input)
        decreases n - start
      {
        var nl := StrChr(start, NL);
        NewlineSeen(input, start, nl);
        if nl.None? {
          NoLine(input, start, done);
          return;
        }
        ghost var line := input[start..nl.value];
        EndLine(start, nl.value, line);
        FirstLine(input, start, nl.value, done);
        done := done + [line];
        start := nl.value + 1;
      }
    }

    /** Replace the newline by a NUL and hand the line on. */
    method EndLine(start: nat, nl: nat, ghost line: seq<byte>)
      requires buf.Length == PENDING_SIZE && start <= nl < PENDING_SIZE - 1 && buf[PENDING_SIZE - 1] == 0
      requires buf[start..nl] == line && NulFree(line)
      modifies this`dispatched, buf
      ensures dispatched == old(dispatched) + [Trimmed(line)]
      ensures forall i :: 0 <= i < PENDING_SIZE ==> buf[i] == old(buf[i]) || (start <= i <= nl && buf[i] == 0)
      ensures buf[nl] == 0
    {
      assert forall i :: start <= i < nl ==> buf[i] == line[i - start];
      buf[nl] := 0;
      assert buf[start..nl] == line;
      ConsumeLine(start, nl);
    }

    /** Within NUL-free input the search finds the next newline exactly if there is one. */
    lemma NewlineSeen(input: seq<byte>, start: nat, nl: Option<nat>)
      requires buf.Length == PENDING_SIZE && start <= |input| < PENDING_SIZE && NulFree(input)
      requires forall i :: start <= i < |input| ==> buf[i] == input[i]
      requires forall i :: |input| <= i < PENDING_SIZE ==> buf[i] != NL
      requires nl.Some? ==> start <= nl.value < PENDING_SIZE - 1 && buf[nl.value] == NL
      requires nl.Some? ==> forall i :: start <= i < nl.value ==> buf[i] != NL && buf[i] != 0
      requires nl.None? ==> exists e: nat :: StringEnds(start, e) && forall i :: start <= i < e ==> buf[i] != NL
      ensures Find(input[start..], NL) == if nl.Some? then nl.value - start else |input| - start
      ensures nl.Some? ==> nl.value < |input|
      ensures nl.None? ==> forall i :: start <= i < |input| ==> buf[i] != NL
    {
      var rest := input[start..];
      assert forall i :: start <= i < |input| ==> buf[i] == rest[i - start];
      if nl.Some? {
        FindUnique(rest, NL, nl.value - start);
      } else {
        var e: nat :| StringEnds(start, e) && forall i :: start <= i < e ==> buf[i] != NL;
        assert forall i :: 0 <= i < |input| ==> input[i] in input;
        FindUnique(rest, NL, |rest|);
      }
    }

    /** One call of the reader, whatever chunks the pipe delivers, as long as they fit. */
    method ReadMore(chunks: seq<seq<byte>>)
      requires Valid() && NulFree(Joined(chunks)) && len + |Joined(chunks)| < PENDING_SIZE
      modifies this, buf
      ensures Valid()
      ensures var input := old(Pending()) + Joined(chunks);
              dispatched == old(dispatched) + TrimmedAll(Lines(input)) && Pending() == Tail(input)
    {
      hide Lines;
      hide Tail;
      hide TrimmedAll;
      ghost var input := Pending() + Joined(chunks);
      assert forall i :: 0 <= i < PENDING_SIZE ==> buf[i] in buf[..];
      Accept(chunks);
      var start := SplitLines(input);
      var remaining := len - start;
      if start != 0 && remaining > 0 {
        MoveDown(start, remaining);
      }
      len := remaining;
      assert buf[..len] == input[start..];
    }

    /**
     * The reader thread: call after call, each delivering its own chunks. Everything handed on and
     * everything kept is determined by the bytes of the connection, not by how they were delivered.
     */
    method ReadConnection(calls: seq<seq<seq<byte>>>)
      requires Valid() && FitsAll(Pending(), calls)
      modifies this, buf
      ensures Valid()
      ensures var input := old(Pending()) + JoinedAll(calls);
              dispatched == old(dispatched) + TrimmedAll(Lines(input)) && Pending() == Tail(input)
      decreases |calls|
    {
      hide Lines;
      hide Tail;
      hide TrimmedAll;
      ghost var pending := Pending();
      if calls == [] {
        assert forall i :: 0 <= i < len ==> buf[i] in buf[..];
        NothingToSplit(pending);
        assert pending + [] == pending && dispatched + [] == dispatched;
        return;
      }
      ghost var a, b := pending + Joined(calls[0]), JoinedAll(calls[1..]);
      ReadMore(calls[0]);
      ReadConnection(calls[1..]);
      Regroup(pending, Joined(calls[0]), b);
      SplitContinues(a, b);
      TrimmedConcat(Lines(a), Lines(Tail(a) + b));
      Regroup(old(dispatched), TrimmedAll(Lines(a)), TrimmedAll(Lines(Tail(a) + b)));
    }

    /** memmove to the front of the buffer; the two ranges may overlap. */
    method MoveDown(start: nat, remaining: nat)
      requires start + remaining <= buf.Length
      modifies buf
      ensures buf[..remaining] == old(buf[start..start + remaining])
      ensures forall i :: remaining <= i < buf.Length ==> buf[i] == old(buf[i])
    {
      var i := 0;
      while i < remaining
        invariant 0 <= i <= remaining
        invariant forall k :: 0 <= k < i ==> buf[k] == old(buf[start + k])
        invariant forall k :: i <= k < buf.Length ==> buf[k] == old(buf[k])
      {
        buf[i] := buf[start + i];
        i := i + 1;
      }
    }

    method Append(chunk: seq<byte>)
      requires buf.Length == PENDING_SIZE && len + |chunk| < PENDING_SIZE
      modifies this`len, buf
      ensures len == old(len) + |chunk| && buf[..len] == old(buf[..len]) + chunk
      ensures forall i :: len <= i < PENDING_SIZE ==> buf[i] == old(buf[i])
    {
      var i := 0;
      while i < |chunk|
        modifies buf
        invariant 0 <= i <= |chunk|
        invariant buf[..len + i] == old(buf[..len]) + chunk[..i]
        invariant forall k :: len + i <= k < PENDING_SIZE ==> buf[k] == old(buf[k])
      {
        buf[len + i] := chunk[i];
        i := i + 1;
      }
      len := len + |chunk|;
    }
  }

  /** Taking the next line off the input. */
  lemma FirstLine(input: seq<byte>, start: nat, nl: nat, done: seq<seq<byte>>)
    requires start <= nl < |input| && Find(input[start..], NL) == nl - start
    ensures (done + [input[start..nl]]) + Lines(input[nl + 1..]) == done + Lines(input[start..])
    ensures Tail(input[nl + 1..]) == Tail(input[start..])
    ensures TrimmedAll(done + [input[start..nl]]) == TrimmedAll(done) + [Trimmed(input[start..nl])]
  {
    hide *;
    var rest, line := input[start..], input[start..nl];
    assert rest[..nl - start] == line && rest[nl - start + 1..] == input[nl + 1..];
    LinesUnfold(rest);
    Regroup(done, [line], Lines(input[nl + 1..]));
    TrimmedConcat(done, [line]);
    TrimmedSingle(line);
  }

  lemma LinesUnfold(s: seq<byte>)
    requires Find(s, NL) < |s|
    ensures Lines(s) == [s[..Find(s, NL)]] + Lines(s[Find(s, NL) + 1..])
    ensures Tail(s) == Tail(s[Find(s, NL) + 1..])
  {
    hide Find;
  }

  lemma TrimmedSingle(line: seq<byte>)
    ensures TrimmedAll([line]) == [Trimmed(line)]
  {
  }

  lemma NoLine(input: seq<byte>, start: nat, done: seq<seq<byte>>)
    requires start <= |input| && Find(input[start..], NL) == |input| - start
    ensures done + Lines(input[start..]) == done && Tail(input[start..]) == input[start..]
  {
  }

  lemma NothingTrimmed()
    ensures TrimmedAll([]) == []
  {
  }
}
