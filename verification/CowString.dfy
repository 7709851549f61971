/**
 * Copy-on-write strings: handles share counted bodies. Every operation is proved to do to its own
 * string what it would do to a separate value, and nothing to any other.
 */
module CowString {
  import opened Bytes

  type StrId = nat
  type BodyId = nat

  /** What a string object holds: no pointer, the shared empty string, or a body on the heap. */
  datatype Handle = Null | Sentinel | At(id: BodyId)

  /** A body: its length field, its reference count, and its allocated bytes. */
  datatype Body = Body(size: nat, refs: int, data: seq<byte>)

  type Bodies = map<BodyId, Body>
  type Handles = map<StrId, Handle>

  /** The length field is the C length: a NUL right behind, none before. */
  ghost predicate Shaped(b: Body) {
    b.size < |b.data| && b.data[b.size] == 0 && 0 !in b.data[..b.size]
  }

  ghost function Holders(handles: Handles, id: BodyId): set<StrId> {
    set s | s in handles && handles[s] == At(id)
  }

  /**
   * Every handle points to a live body, no body is counted below the handles on it, and every body
   * but the `loose` ones has the shape of a C string.
   */
  ghost predicate Sound(bodies: Bodies, handles: Handles, next: BodyId, loose: set<BodyId>) {
    && (forall s <- handles :: handles[s].At? ==> handles[s].id in bodies)
    && (forall id <- bodies :: id < next && BodySound(bodies[id], |Holders(handles, id)|, id in loose))
  }

  ghost predicate BodySound(b: Body, holders: nat, loose: bool) {
    1 <= b.refs && holders <= b.refs && b.size < |b.data| && (loose || Shaped(b))
  }

  ghost predicate Readable(bodies: Bodies, h: Handle) {
    h.At? ==> h.id in bodies && bodies[h.id].size <= |bodies[h.id].data|
  }

  ghost function Text(bodies: Bodies, h: Handle): seq<byte>
    requires Readable(bodies, h)
  {
    if h.At? then bodies[h.id].data[..bodies[h.id].size] else []
  }

  /** The heap seen as separate values. */
  ghost function View(bodies: Bodies, handles: Handles): map<StrId, seq<byte>>
    requires forall s <- handles :: Readable(bodies, handles[s])
  {
    map s | s in handles :: Text(bodies, handles[s])
  }

  // ---- Counting ----

  /** Moving one handle changes at most the counts of the body it leaves and the body it joins. */
  lemma Repoint(handles: Handles, s: StrId, h: Handle, id: BodyId)
    ensures var was := s in handles && handles[s] == At(id);
            |Holders(handles[s := h], id)|
              == |Holders(handles, id)| + (if h == At(id) then 1 else 0) - (if was then 1 else 0)
  {
    var a, b := Holders(handles, id), Holders(handles[s := h], id);
    assert s in a <==> s in handles && handles[s] == At(id);
    if h == At(id) {
      assert b == a + {s};
    } else {
      assert b == a - {s};
    }
  }

  lemma RepointAll(handles: Handles, s: StrId, h: Handle)
    ensures forall id: BodyId ::
              |Holders(handles[s := h], id)|
                == |Holders(handles, id)| + (if h == At(id) then 1 else 0)
                   - (if s in handles && handles[s] == At(id) then 1 else 0)
  {
    forall id: BodyId {
      Repoint(handles, s, h, id);
    }
  }

  /** A body counted once has one holder. */
  lemma SoleHolder(bodies: Bodies, handles: Handles, next: BodyId, loose: set<BodyId>, s: StrId, t: StrId)
    requires Sound(bodies, handles, next, loose)
    requires s in handles && t in handles && s != t
    requires handles[s].At? && bodies[handles[s].id].refs == 1
    ensures handles[t] != handles[s]
  {
    if handles[t] == handles[s] {
      var holders := Holders(handles, handles[s].id);
      assert {s, t} <= holders;
      SubsetSize({s, t}, holders);
    }
  }

  lemma SubsetSize<T>(a: set<T>, b: set<T>)
    requires a <= b
    ensures |a| <= |b|
  {
    assert b == a + (b - a);
  }

  // ---- The characters the trimming loop sees ----

  /** Leading occurrences removed. */
  function Stripped(text: seq<byte>, ch: byte): seq<byte> {
    if text != [] && text[0] == ch then Stripped(text[1..], ch) else text
  }

  /** The loop compares an unsigned character with a signed one: from 0x80 on they never agree. */
  predicate SameChar(c: byte, ch: byte) {
    c == ch && ch < 0x80
  }

  function TrimCount(text: seq<byte>, ch: byte): (n: nat)
    ensures n <= |text|
  {
    if text != [] && SameChar(text[0], ch) then 1 + TrimCount(text[1..], ch) else 0
  }

  /** Trimming strips the character exactly when it is ASCII or does not occur in front. */
  lemma {:induction false} TrimStripsIff(text: seq<byte>, ch: byte)
    ensures text[TrimCount(text, ch)..] == Stripped(text, ch) <==> ch < 0x80 || text == [] || text[0] != ch
  {
    if text != [] && text[0] == ch {
      StrippedShorter(text[1..], ch);
      if ch < 0x80 {
        TrimStripsIff(text[1..], ch);
        assert text[1..][TrimCount(text[1..], ch)..] == text[TrimCount(text, ch)..];
      }
    }
  }

  /** What is counted: all leading occurrences of an ASCII character, none of any other. */
  lemma {:induction false} TrimCountMeans(text: seq<byte>, ch: byte)
    ensures ch >= 0x80 ==> TrimCount(text, ch) == 0
    ensures forall i :: 0 <= i < TrimCount(text, ch) ==> text[i] == ch
    ensures ch < 0x80 && TrimCount(text, ch) < |text| ==> text[TrimCount(text, ch)] != ch
  {
    if text != [] && SameChar(text[0], ch) {
      TrimCountMeans(text[1..], ch);
      var n := TrimCount(text[1..], ch);
      forall i | 0 <= i < n + 1 ensures text[i] == ch {
        if i > 0 {
          assert text[i] == text[1..][i - 1];
        }
      }
    }
  }

  lemma {:induction false} StrippedShorter(text: seq<byte>, ch: byte)
    ensures |Stripped(text, ch)| <= |text|
  {
    if text != [] {
      StrippedShorter(text[1..], ch);
    }
  }

  function IndexOf(text: seq<byte>, ch: byte): (p: nat)
    ensures p <= |text|
    ensures p < |text| ==> text[p] == ch
    ensures forall i :: 0 <= i < p ==> text[i] != ch
  {
    if text == [] || text[0] == ch then 0 else 1 + IndexOf(text[1..], ch)
  }

  // ---- Pieces of the heap argument ----

  ghost predicate AllReadable(bodies: Bodies, handles: Handles) {
    forall s <- handles :: Readable(bodies, handles[s])
  }

  /** Every string but `s` reads the same in both heaps. */
  ghost predicate OthersSame(bodies: Bodies, handles: Handles, bodies': Bodies, handles': Handles, s: StrId) {
    && AllReadable(bodies, handles) && AllReadable(bodies', handles')
    && handles'.Keys == handles.Keys + {s}
    && forall t <- handles :: t != s ==>
         handles'[t] == handles[t] && Text(bodies', handles[t]) == Text(bodies, handles[t])
  }

  /** Giving a body that only `s` holds a new, well-shaped content. */
  lemma Settle(bodies: Bodies, handles: Handles, next: BodyId, s: StrId, b: Body)
    requires s in handles && handles[s].At? && Sound(bodies, handles, next, {handles[s].id})
    requires bodies[handles[s].id].refs == 1 && b.refs == 1 && Shaped(b)
    ensures Sound(bodies[handles[s].id := b], handles, next, {})
    ensures OthersSame(bodies, handles, bodies[handles[s].id := b], handles, s)
    ensures Text(bodies[handles[s].id := b], handles[s]) == b.data[..b.size]
  {
    forall t | t in handles && t != s
      ensures handles[t] != handles[s]
    {
      SoleHolder(bodies, handles, next, {handles[s].id}, s, t);
    }
  }

  /** The strings of a heap after a cut in place at `n` of the body that `s` is on. */
  ghost function SharersCut(values: map<StrId, seq<byte>>, handles: Handles, s: StrId, n: nat): map<StrId, seq<byte>>
    requires s in handles && values.Keys == handles.Keys
  {
    map t | t in values :: if handles[t] == handles[s] then values[t][..Min(n, |values[t]|)] else values[t]
  }

  lemma HasBody(bodies: Bodies, handles: Handles, next: BodyId, s: StrId)
    requires s in handles && handles[s].At?
    requires Sound(bodies, handles, next, {}) || Sound(bodies, handles, next, {handles[s].id})
    ensures handles[s].id in bodies && bodies[handles[s].id].size < |bodies[handles[s].id].data|
  {
    assert BodySound(bodies[handles[s].id], |Holders(handles, handles[s].id)|, true);
  }

  lemma NothingToCut(bodies: Bodies, handles: Handles, next: BodyId, s: StrId, n: nat)
    requires Sound(bodies, handles, next, {}) && s in handles && !handles[s].At?
    ensures View(bodies, handles).Keys == handles.Keys
    ensures View(bodies, handles) == SharersCut(View(bodies, handles), handles, s, n)
  {
    SoundReadable(bodies, handles, next, {});
  }

  lemma CutShared(bodies: Bodies, handles: Handles, next: BodyId, s: StrId, n: nat, cut: Body)
    requires Sound(bodies, handles, next, {}) && s in handles && handles[s].At?
    requires var body := bodies[handles[s].id];
             var size := Min(n, body.size);
             body.size < |body.data| && cut == Body(size, body.refs, body.data[size := 0])
    ensures var bodies' := bodies[handles[s].id := cut];
            && Sound(bodies', handles, next, {})
            && View(bodies', handles) == SharersCut(View(bodies, handles), handles, s, n)
  {
    var id, body := handles[s].id, bodies[handles[s].id];
    var bodies' := bodies[id := cut];
    assert BodySound(body, |Holders(handles, id)|, false);
    assert cut.data[..cut.size] == body.data[..cut.size] == body.data[..body.size][..cut.size];
    assert BodySound(cut, |Holders(handles, id)|, false);
    SoundReadable(bodies, handles, next, {});
    SoundReadable(bodies', handles, next, {});
    forall t | t in handles ensures Text(bodies', handles[t]) ==
        if handles[t] == handles[s] then Text(bodies, handles[t])[..Min(n, |Text(bodies, handles[t])|)]
        else Text(bodies, handles[t])
    {
    }
  }

  lemma OthersSameTwice(bodies: Bodies, handles: Handles, bodies': Bodies, handles': Handles,
                        bodies'': Bodies, handles'': Handles, s: StrId)
    requires OthersSame(bodies, handles, bodies', handles', s)
    requires OthersSame(bodies', handles', bodies'', handles'', s)
    ensures OthersSame(bodies, handles, bodies'', handles'', s)
  {
  }

  /** Overwriting bytes of a body that only `s` holds. */
  lemma Rewrite(bodies: Bodies, handles: Handles, next: BodyId, s: StrId, b: Body)
    requires s in handles && handles[s].At? && Sound(bodies, handles, next, {handles[s].id})
    requires bodies[handles[s].id].refs == 1 && b.refs == 1 && b.size < |b.data|
    ensures Sound(bodies[handles[s].id := b], handles, next, {handles[s].id})
    ensures OthersSame(bodies, handles, bodies[handles[s].id := b], handles, s)
  {
    forall t | t in handles && t != s
      ensures handles[t] != handles[s]
    {
      SoleHolder(bodies, handles, next, {handles[s].id}, s, t);
    }
  }

  /** A new body for `s` alone; the one it held keeps its count. */
  lemma Detach(bodies: Bodies, handles: Handles, next: BodyId, loose: set<BodyId>, s: StrId, b: Body)
    requires Sound(bodies, handles, next, loose) && b.refs == 1 && b.size < |b.data|
    ensures var bodies', handles' := bodies[next := b], handles[s := At(next)];
            && Sound(bodies', handles', next + 1, loose + {next})
            && (loose == {} ==> Sound(bodies', handles', next + 1, {next}))
            && (Shaped(b) ==> Sound(bodies', handles', next + 1, loose))
            && OthersSame(bodies, handles, bodies', handles', s)
  {
    SoundReadable(bodies, handles, next, loose);
    DetachCounts(bodies, handles, next, loose, s, b);
    SameBytesSameTexts(bodies, handles, bodies[next := b], handles[s := At(next)], s);
    assert loose == {} ==> loose + {next} == {next};
  }

  lemma DetachCounts(bodies: Bodies, handles: Handles, next: BodyId, loose: set<BodyId>, s: StrId, b: Body)
    requires Sound(bodies, handles, next, loose) && b.refs == 1 && b.size < |b.data|
    ensures Sound(bodies[next := b], handles[s := At(next)], next + 1, loose + {next})
    ensures Shaped(b) ==> Sound(bodies[next := b], handles[s := At(next)], next + 1, loose)
  {
    RepointAll(handles, s, At(next));
    assert Holders(handles, next) == {};
  }

  /** Letting go of the body `s` holds: its count goes down, and at zero it is freed. */
  function Released(bodies: Bodies, h: Handle): Bodies
    requires h.At? ==> h.id in bodies
  {
    if !h.At? then bodies
    else if bodies[h.id].refs - 1 == 0 then bodies - {h.id}
    else bodies[h.id := bodies[h.id].(refs := bodies[h.id].refs - 1)]
  }

  /** What a handle points to in a sound heap. */
  lemma Pointed(bodies: Bodies, handles: Handles, next: BodyId, loose: set<BodyId>, s: StrId)
    requires s in handles && Sound(bodies, handles, next, loose)
    ensures handles[s].At? ==>
              && handles[s].id in bodies && handles[s].id < next
              && 1 <= bodies[handles[s].id].refs
              && bodies[handles[s].id].size < |bodies[handles[s].id].data|
              && (handles[s].id !in loose ==> Shaped(bodies[handles[s].id]))
  {
  }

  /** One more handle on the body of `h`. */
  function Retained(bodies: Bodies, h: Handle): Bodies
    requires h.At? ==> h.id in bodies
  {
    if !h.At? then bodies else bodies[h.id := bodies[h.id].(refs := bodies[h.id].refs + 1)]
  }

  lemma SoundReadable(bodies: Bodies, handles: Handles, next: BodyId, loose: set<BodyId>)
    requires Sound(bodies, handles, next, loose)
    ensures AllReadable(bodies, handles)
  {
  }

  /** Bodies that keep their bytes keep every string on them. */
  lemma SameBytesSameTexts(bodies: Bodies, handles: Handles, bodies': Bodies, handles': Handles, s: StrId)
    requires AllReadable(bodies, handles)
    requires s in handles' && handles' == handles[s := handles'[s]] && Readable(bodies', handles'[s])
    requires forall t <- handles :: t != s && handles[t].At? ==>
               && handles[t].id in bodies'
               && bodies'[handles[t].id].size == bodies[handles[t].id].size
               && bodies'[handles[t].id].data == bodies[handles[t].id].data
    ensures OthersSame(bodies, handles, bodies', handles', s)
  {
  }

  lemma RetainCounts(bodies: Bodies, handles: Handles, next: BodyId, s: StrId, h: Handle)
    requires Sound(bodies, handles, next, {}) && (h.At? ==> h.id in bodies)
    requires s in handles ==> handles[s] == Sentinel
    ensures Sound(Retained(bodies, h), handles[s := h], next, {})
  {
    var bodies', handles' := Retained(bodies, h), handles[s := h];
    forall id | id in bodies'
      ensures id < next && BodySound(bodies'[id], |Holders(handles', id)|, false)
    {
      Repoint(handles, s, h, id);
      assert BodySound(bodies[id], |Holders(handles, id)|, false);
    }
  }

  lemma Retain(bodies: Bodies, handles: Handles, next: BodyId, s: StrId, h: Handle)
    requires Sound(bodies, handles, next, {}) && (h.At? ==> h.id in bodies)
    requires s in handles ==> handles[s] == Sentinel
    ensures Sound(Retained(bodies, h), handles[s := h], next, {})
    ensures OthersSame(bodies, handles, Retained(bodies, h), handles[s := h], s)
    ensures Text(Retained(bodies, h), h) == Text(bodies, h)
  {
    RetainCounts(bodies, handles, next, s, h);
    SoundReadable(bodies, handles, next, {});
    SoundReadable(Retained(bodies, h), handles[s := h], next, {});
    hide BodySound;
    SameBytesSameTexts(bodies, handles, Retained(bodies, h), handles[s := h], s);
  }

  lemma ViewUpdated(bodies: Bodies, handles: Handles, bodies': Bodies, handles': Handles, s: StrId)
    requires OthersSame(bodies, handles, bodies', handles', s)
    ensures View(bodies', handles') == View(bodies, handles)[s := Text(bodies', handles'[s])]
  {
  }

  lemma ViewAt(bodies: Bodies, handles: Handles, s: StrId)
    requires s in handles && AllReadable(bodies, handles)
    ensures s in View(bodies, handles) && View(bodies, handles)[s] == Text(bodies, handles[s])
  {
  }

  lemma Release(bodies: Bodies, handles: Handles, next: BodyId, s: StrId)
    requires s in handles && Sound(bodies, handles, next, {})
    ensures Sound(Released(bodies, handles[s]), handles[s := Sentinel], next, {})
    ensures OthersSame(bodies, handles, Released(bodies, handles[s]), handles[s := Sentinel], s)
  {
    var h := handles[s];
    var bodies', handles' := Released(bodies, h), handles[s := Sentinel];
    if h.At? && bodies[h.id].refs == 1 {
      forall t | t in handles && t != s
        ensures handles[t] != h
      {
        SoleHolder(bodies, handles, next, {}, s, t);
      }
    }
    ReleaseCounts(bodies, handles, next, s);
    SoundReadable(bodies, handles, next, {});
    SameBytesSameTexts(bodies, handles, bodies', handles', s);
  }

  lemma ReleaseCounts(bodies: Bodies, handles: Handles, next: BodyId, s: StrId)
    requires s in handles && Sound(bodies, handles, next, {})
    ensures forall id <- Released(bodies, handles[s]) ::
              id < next && BodySound(Released(bodies, handles[s])[id], |Holders(handles[s := Sentinel], id)|, false)
  {
    var bodies', handles' := Released(bodies, handles[s]), handles[s := Sentinel];
    forall id | id in bodies'
      ensures id < next && BodySound(bodies'[id], |Holders(handles', id)|, false)
    {
      Repoint(handles, s, Sentinel, id);
      assert BodySound(bodies[id], |Holders(handles, id)|, false);
    }
  }

  lemma NormalisedSame(bodies: Bodies, handles: Handles, next: BodyId, s: StrId)
    requires s in handles && Sound(bodies, handles, next, {})
    ensures var h := handles[s];
            OthersSame(bodies, handles, bodies, handles[s := if h == Null then Sentinel else h], s)
    ensures s in View(bodies, handles) && View(bodies, handles)[s] == Text(bodies, handles[s])
    ensures handles[s := handles[s]] == handles
  {
    SoundReadable(bodies, handles, next, {});
    ViewAt(bodies, handles, s);
    assert handles[s := handles[s]] == handles;
    SameBytesSameTexts(bodies, handles, bodies, handles[s := if handles[s] == Null then Sentinel else handles[s]], s);
  }

  lemma DropEmpty(bodies: Bodies, handles: Handles, next: BodyId, s: StrId)
    requires s in handles && handles[s] == Sentinel && Sound(bodies, handles, next, {})
    ensures Sound(bodies, handles - {s}, next, {})
    ensures View(bodies, handles - {s}) == View(bodies, handles) - {s}
  {
    forall id | id in bodies
      ensures Holders(handles - {s}, id) == Holders(handles, id)
    {
    }
  }

  // ---- Counts and handles ----

  /** How far a body is counted above the handles on it. */
  ghost function Surplus(bodies: Bodies, handles: Handles, id: BodyId): int
    requires id in bodies
  {
    bodies[id].refs - |Holders(handles, id)|
  }

  /**
   * From one heap to another the surplus of every body stays, new bodies have none, and only bodies
   * without are freed; except that the body of `leaked`, if it is one, gains one.
   */
  ghost predicate Accounts(bodies: Bodies, handles: Handles, bodies': Bodies, handles': Handles, leaked: Handle) {
    && (leaked.At? ==> leaked.id in bodies && leaked.id in bodies')
    && (forall id <- bodies' ::
          Surplus(bodies', handles', id)
            == (if id in bodies then Surplus(bodies, handles, id) else 0) + (if leaked == At(id) then 1 else 0))
    && (forall id <- bodies :: id !in bodies' ==> Surplus(bodies, handles, id) == 0)
  }

  /** Every body is counted exactly as often as there are handles on it. */
  ghost predicate Exact(bodies: Bodies, handles: Handles) {
    forall id <- bodies :: Surplus(bodies, handles, id) == 0
  }

  lemma ExactStays(bodies: Bodies, handles: Handles, bodies': Bodies, handles': Handles)
    requires Exact(bodies, handles) && Accounts(bodies, handles, bodies', handles', Null)
    ensures Exact(bodies', handles')
  {
  }

  /** Then a heap without strings is empty. */
  lemma ExactAndUnusedIsEmpty(bodies: Bodies, next: BodyId)
    requires Sound(bodies, map[], next, {}) && Exact(bodies, map[])
    ensures bodies == map[]
  {
    UnusedHaveSurplus(bodies, next);
    assert forall id: BodyId :: id !in bodies;
  }

  lemma UnusedHaveSurplus(bodies: Bodies, next: BodyId)
    requires Sound(bodies, map[], next, {})
    ensures forall id <- bodies :: Surplus(bodies, map[], id) >= 1
  {
    forall id | id in bodies ensures Surplus(bodies, map[], id) >= 1 {
      assert Holders(map[], id) == {};
      assert BodySound(bodies[id], |Holders(map[], id)|, false);
    }
  }

  lemma AccountsAfter(bodies: Bodies, handles: Handles, bodies': Bodies, handles': Handles,
                      bodies'': Bodies, handles'': Handles, leaked: Handle)
    requires Accounts(bodies, handles, bodies', handles', Null)
    requires Accounts(bodies', handles', bodies'', handles'', leaked) && (leaked.At? ==> leaked.id in bodies)
    ensures Accounts(bodies, handles, bodies'', handles'', leaked)
  {
    hide Surplus;
  }

  lemma AccountsBefore(bodies: Bodies, handles: Handles, bodies': Bodies, handles': Handles,
                       bodies'': Bodies, handles'': Handles, leaked: Handle)
    requires Accounts(bodies, handles, bodies', handles', leaked)
    requires Accounts(bodies', handles', bodies'', handles'', Null) && bodies'.Keys <= bodies''.Keys
    ensures Accounts(bodies, handles, bodies'', handles'', leaked)
  {
    hide Surplus;
  }

  lemma AccountsSame(bodies: Bodies, handles: Handles)
    ensures Accounts(bodies, handles, bodies, handles, Null)
  {
  }

  /** A string gives up its body. */
  lemma AccountsRelease(bodies: Bodies, handles: Handles, next: BodyId, s: StrId)
    requires s in handles && Sound(bodies, handles, next, {})
    ensures Accounts(bodies, handles, Released(bodies, handles[s]), handles[s := Sentinel], Null)
  {
    Pointed(bodies, handles, next, {}, s);
    RepointAll(handles, s, Sentinel);
    if handles[s].At? {
      var id := handles[s].id;
      assert BodySound(bodies[id], |Holders(handles, id)|, false);
      assert s in Holders(handles, id);
    }
  }

  /** A string without a body joins one, or none. */
  lemma AccountsRetain(bodies: Bodies, handles: Handles, s: StrId, h: Handle)
    requires (h.At? ==> h.id in bodies) && (s in handles ==> !handles[s].At?)
    ensures Accounts(bodies, handles, Retained(bodies, h), handles[s := h], Null)
  {
    RepointAll(handles, s, h);
  }

  /** A string gets a new body; the one it leaves, if any, keeps its count. */
  lemma AccountsDetach(bodies: Bodies, handles: Handles, next: BodyId, s: StrId, b: Body)
    requires Sound(bodies, handles, next, {}) && b.refs == 1
    ensures Accounts(bodies, handles, bodies[next := b], handles[s := At(next)], Leaves(handles, s))
  {
    RepointAll(handles, s, At(next));
    assert next !in bodies && Holders(handles, next) == {};
  }

  /** The body a string is on, as a handle; Null if it is on none. */
  ghost function Leaves(handles: Handles, s: StrId): Handle {
    if s in handles && handles[s].At? then handles[s] else Null
  }

  /** The body a string of `length` characters leaves behind when room for `n` is made; Null for none. */
  ghost function Left(handles: Handles, s: StrId, length: nat, n: int): Handle {
    if length < Max(n, 1) then Leaves(handles, s) else Null
  }

  /** A body changes but for its count. */
  lemma AccountsRewrite(bodies: Bodies, handles: Handles, id: BodyId, b: Body)
    requires id in bodies && b.refs == bodies[id].refs
    ensures Accounts(bodies, handles, bodies[id := b], handles, Null)
  {
  }

  /** A string without a body goes. */
  lemma AccountsDrop(bodies: Bodies, handles: Handles, s: StrId)
    requires s in handles && !handles[s].At?
    ensures Accounts(bodies, handles, bodies, handles - {s}, Null)
  {
    forall id: BodyId ensures Holders(handles - {s}, id) == Holders(handles, id) {
    }
  }

  class StringHeap {
    var bodies: Bodies
    var handles: Handles
    var next: BodyId

    ghost predicate Valid()
      reads this
    {
      Sound(bodies, handles, next, {})
    }

    /** All strings, as separate values. */
    ghost function Values(): map<StrId, seq<byte>>
      requires Valid()
      reads this
    {
      View(bodies, handles)
    }

    constructor ()
      ensures Valid() && handles == map[] && Values() == map[]
    {
      bodies, handles, next := map[], map[], 0;
    }

    method Allocate(b: Body) returns (id: BodyId)
      modifies `bodies, `next
      ensures id == old(next) && next == old(next) + 1 && bodies == old(bodies)[id := b]
    {
      id := next;
      bodies := bodies[id := b];
      next := next + 1;
    }

    /** The handle of `s` gives up its body and becomes the shared empty string. */
    method DecRefCount(s: StrId)
      requires Valid() && s in handles
      modifies `bodies, `handles
      ensures Valid() && bodies == Released(old(bodies), old(handles[s])) && handles == old(handles)[s := Sentinel]
      ensures OthersSame(old(bodies), old(handles), bodies, handles, s)
      ensures Accounts(old(bodies), old(handles), bodies, handles, Null)
      ensures old(handles[s]).At? ==>
                var id, b := old(handles[s]).id, old(bodies[handles[s].id]);
                && (id in bodies <==> b.refs != 1)
                && (id in bodies ==> bodies[id] == Body(b.size, b.refs - 1, b.data))
                && bodies - {id} == old(bodies) - {id}
      ensures !old(handles[s]).At? ==> bodies == old(bodies)
    {
      hide Sound;
      hide OthersSame;
      hide Accounts;
      Release(bodies, handles, next, s);
      AccountsRelease(bodies, handles, next, s);
      Pointed(bodies, handles, next, {}, s);
      if handles[s].At? {
        var id := handles[s].id;
        var refs := bodies[id].refs - 1;
        if refs == 0 {
          bodies := bodies - {id};
        } else {
          bodies := bodies[id := bodies[id].(refs := refs)];
        }
      }
      handles := handles[s := Sentinel];
    }

    method GetLength(s: StrId) returns (n: nat)
      requires Valid() && s in handles
      ensures n == |Values()[s]|
    {
      if !handles[s].At? {
        return 0;
      }
      return bodies[handles[s].id].size;
    }

    /** The body of this handle, if it is one, is counted once more; nothing else changed. */
    ghost predicate CountedOnceMore(before: Bodies, after: Bodies, h: Handle) {
      if h.At?
      then && h.id in before && h.id in after && after - {h.id} == before - {h.id}
           && after[h.id] == Body(before[h.id].size, before[h.id].refs + 1, before[h.id].data)
      else after == before
    }

    /** A second handle on the string of `t`. */
    method CopyConstruct(s: StrId, t: StrId)
      requires Valid() && s !in handles && t in handles
      modifies `bodies, `handles
      ensures Valid() && Values() == old(Values())[s := old(Values())[t]]
      ensures handles == old(handles)[s := old(handles[t])]
      ensures Accounts(old(bodies), old(handles), bodies, handles, Null)
      ensures CountedOnceMore(old(bodies), bodies, handles[s])
    {
      hide Sound;
      hide OthersSame;
      hide View;
      hide Accounts;
      SoundReadable(bodies, handles, next, {});
      ViewAt(bodies, handles, t);
      Pointed(bodies, handles, next, {}, t);
      Retain(bodies, handles, next, s, handles[t]);
      AccountsRetain(bodies, handles, s, handles[t]);
      ViewUpdated(bodies, handles, Retained(bodies, handles[t]), handles[s := handles[t]], s);
      handles := handles[s := handles[t]];
      if handles[s].At? {
        var id := handles[s].id;
        bodies := bodies[id := bodies[id].(refs := bodies[id].refs + 1)];
      }
    }

    /** Assignment: nothing when both already show the same buffer. */
    method Assign(s: StrId, t: StrId)
      requires Valid() && s in handles && t in handles
      modifies `bodies, `handles
      ensures Valid() && Values() == old(Values())[s := old(Values())[t]]
      ensures handles == old(handles)[s := old(handles[t])]
      ensures Accounts(old(bodies), old(handles), bodies, handles, Null)
    {
      hide Sound;
      hide OthersSame;
      hide View;
      hide Accounts;
      SoundReadable(bodies, handles, next, {});
      ViewAt(bodies, handles, t);
      ghost var h := handles[t];
      if handles[t] == handles[s] {
        AccountsSame(bodies, handles);
        assert handles == handles[s := handles[s]];
        ViewAt(bodies, handles, s);
        return;
      }
      SetBuffer(s, handles[t], t);
    }

    method SetBuffer(s: StrId, h: Handle, ghost t: StrId)
      requires Valid() && s in handles && t in handles && handles[t] == h && handles[s] != h
      modifies `bodies, `handles
      ensures Valid() && Values() == old(Values())[s := old(Values())[t]]
      ensures handles == old(handles)[s := h]
      ensures Accounts(old(bodies), old(handles), bodies, handles, Null)
    {
      hide Sound;
      hide OthersSame;
      hide View;
      hide Accounts;
      SoundReadable(bodies, handles, next, {});
      ViewAt(bodies, handles, t);
      ghost var text := Text(bodies, h);
      DecRefCount(s);
      ViewUpdated(old(bodies), old(handles), bodies, handles, s);
      Pointed(bodies, handles, next, {}, t);
      Retain(bodies, handles, next, s, h);
      AccountsRetain(bodies, handles, s, h);
      AccountsAfter(old(bodies), old(handles), bodies, handles, Retained(bodies, h), handles[s := h], Null);
      ViewUpdated(bodies, handles, Retained(bodies, h), handles[s := h], s);
      handles := handles[s := h];
      if h.At? {
        bodies := bodies[h.id := bodies[h.id].(refs := bodies[h.id].refs + 1)];
      }
    }

    /** The destructor. */
    method Destroy(s: StrId)
      requires Valid() && s in handles
      modifies `bodies, `handles
      ensures Valid() && Values() == old(Values()) - {s} && handles == old(handles) - {s}
      ensures Accounts(old(bodies), old(handles), bodies, handles, Null)
    {
      hide Sound;
      hide OthersSame;
      hide View;
      hide Accounts;
      DecRefCount(s);
      ViewUpdated(old(bodies), old(handles), bodies, handles, s);
      DropEmpty(bodies, handles, next, s);
      AccountsDrop(bodies, handles, s);
      AccountsAfter(old(bodies), old(handles), bodies, handles, bodies, handles - {s}, Null);
      handles := handles - {s};
    }

    /** A string built from a C string; a null pointer gives a string without a body. */
    method FromBytes(s: StrId, text: Option<seq<byte>>)
      requires Valid() && s !in handles && (text.Some? ==> 0 !in text.value)
      modifies `bodies, `handles, `next
      ensures Valid() && Values() == old(Values())[s := if text.None? then [] else text.value]
      ensures Accounts(old(bodies), old(handles), bodies, handles, Null)
    {
      hide Sound;
      hide OthersSame;
      hide View;
      hide Accounts;
      if text.None? {
        Retain(bodies, handles, next, s, Null);
        AccountsRetain(bodies, handles, s, Null);
        ViewUpdated(bodies, handles, bodies, handles[s := Null], s);
        handles := handles[s := Null];
        return;
      }
      var bytes := text.value;
      var b := Body(|bytes|, 1, bytes + [0]);
      Detach(bodies, handles, next, {}, s, b);
      AccountsDetach(bodies, handles, next, s, b);
      ViewUpdated(bodies, handles, bodies[next := b], handles[s := At(next)], s);
      var id := Allocate(b);
      handles := handles[s := At(id)];
    }

    // ---- Making a body one's own ----

    /** `s` has a body no other string shares; its bytes may not be a C string for the moment. */
    ghost predicate Exclusive(s: StrId)
      reads this
    {
      && s in handles && handles[s].At?
      && Sound(bodies, handles, next, {handles[s].id})
      && bodies[handles[s].id].refs == 1
    }

    ghost function BodyOf(s: StrId): Body
      requires Exclusive(s)
      reads this
    {
      bodies[handles[s].id]
    }

    /** Copy a shared body; an empty string gets a body of its own, whose one byte is arbitrary. */
    method CopyOnWrite(s: StrId, junk: byte)
      requires Valid() && s in handles
      modifies this
      ensures Exclusive(s) && OthersSame(old(bodies), old(handles), bodies, handles, s)
      ensures BodyOf(s).size == |old(Text(bodies, handles[s]))|
      ensures BodyOf(s).data[..BodyOf(s).size] == old(Text(bodies, handles[s]))
      ensures old(handles[s]).At? ==> Shaped(BodyOf(s))
      ensures Accounts(old(bodies), old(handles), bodies, handles, Null)
      ensures old(handles[s]).At? && old(bodies[handles[s].id].refs) == 1 ==> unchanged(this)
    {
      hide Accounts;
      AccountsSame(bodies, handles);
      Pointed(bodies, handles, next, {}, s);
      if !handles[s].At? {
        Detach(bodies, handles, next, {}, s, Body(0, 1, [junk]));
        AccountsDetach(bodies, handles, next, s, Body(0, 1, [junk]));
        var id := Allocate(Body(0, 1, [junk]));
        handles := handles[s := At(id)];
        return;
      }
      if bodies[handles[s].id].refs > 1 {
        CopyShared(s);
      }
    }

    /** Leave the shared body to the others; the copy goes by the C length. */
    method CopyShared(s: StrId)
      requires Valid() && s in handles && handles[s].At?
      modifies this
      ensures Exclusive(s) && OthersSame(old(bodies), old(handles), bodies, handles, s)
      ensures Shaped(BodyOf(s)) && BodyOf(s).data[..BodyOf(s).size] == old(Text(bodies, handles[s]))
      ensures Accounts(old(bodies), old(handles), bodies, handles, Null)
    {
      hide Sound;
      hide OthersSame;
      hide Accounts;
      Pointed(bodies, handles, next, {}, s);
      var body := bodies[handles[s].id];
      var length := IndexOf(body.data, 0);
      DecRefCount(s);
      var copy := Body(length, 1, body.data[..length] + [0]);
      Detach(bodies, handles, next, {}, s, copy);
      OthersSameTwice(old(bodies), old(handles), bodies, handles, bodies[next := copy], handles[s := At(next)], s);
      AccountsDetach(bodies, handles, next, s, copy);
      AccountsAfter(old(bodies), old(handles), bodies, handles, bodies[next := copy], handles[s := At(next)], Null);
      var id := Allocate(copy);
      handles := handles[s := At(id)];
    }

    /** A copy of one's own with room for `n` characters. Copying may read past the old body: `junk`. */
    method CopyOut(s: StrId, n: nat, junk: nat -> byte)
      requires Valid() && s in handles && n >= 1
      modifies this
      ensures Exclusive(s) && OthersSame(old(bodies), old(handles), bodies, handles, s)
      ensures BodyOf(s).size == n && BodyOf(s).data[n] == 0
      ensures old(handles[s]).At? ==>  // the body left behind is not released
                old(handles[s]).id in bodies && bodies[old(handles[s]).id] == old(bodies[handles[s].id])
      ensures var text := old(Text(bodies, handles[s]));
              BodyOf(s).data[..Min(n, |text|)] == text[..Min(n, |text|)]
      ensures Accounts(old(bodies), old(handles), bodies, handles, Leaves(old(handles), s))
    {
      hide Sound;
      hide OthersSame;
      hide Accounts;
      Pointed(bodies, handles, next, {}, s);
      var was := if handles[s].At? then bodies[handles[s].id].data else [];
      var copy := Body(n, 1, seq(n, i requires 0 <= i < n => if i < |was| then was[i] else junk(i)) + [0]);
      Detach(bodies, handles, next, {}, s, copy);
      AccountsDetach(bodies, handles, next, s, copy);
      var id := Allocate(copy);
      handles := handles[s := At(id)];
    }

    /**
     * Room for exactly `n` characters: throws below 0, drops the body for 0, does nothing if the length
     * is `n` already, and otherwise makes a copy of one's own, longer or cut off.
     */
    method Realloc(s: StrId, n: int, junk: nat -> byte) returns (thrown: bool)
      requires Valid() && s in handles
      modifies this
      ensures thrown <==> n < 0
      ensures n < 0 ==> Valid() && Values() == old(Values())
      ensures n == 0 ==> Valid() && Values() == old(Values())[s := []]
      ensures 0 < n == |old(Text(bodies, handles[s]))| ==> unchanged(this)
      ensures 0 < n != |old(Text(bodies, handles[s]))| ==>
                && Exclusive(s) && OthersSame(old(bodies), old(handles), bodies, handles, s)
                && BodyOf(s).size == n && BodyOf(s).data[n] == 0
                && (var text := old(Text(bodies, handles[s]));
                    BodyOf(s).data[..Min(n, |text|)] == text[..Min(n, |text|)])
      ensures 0 < n != |old(Text(bodies, handles[s]))| && old(handles[s]).At? ==>
                old(handles[s]).id in bodies && bodies[old(handles[s]).id] == old(bodies[handles[s].id])
      ensures Accounts(old(bodies), old(handles), bodies, handles,
                       if 0 < n != |old(Text(bodies, handles[s]))| then Leaves(old(handles), s) else Null)
    {
      hide Sound;
      hide OthersSame;
      hide Accounts;
      AccountsSame(bodies, handles);
      Pointed(bodies, handles, next, {}, s);
      NormalisedSame(bodies, handles, next, s);
      Normalise(s);
      if n < 0 {
        return true;
      }
      if n == 0 {
        ghost var was := handles;
        DecRefCount(s);
        ViewUpdated(old(bodies), was, bodies, handles, s);
        AccountsAfter(old(bodies), old(handles), old(bodies), was, bodies, handles, Null);
        return false;
      }
      var size := GetLength(s);
      if n == size {
        return false;
      }
      ghost var middle := handles;
      CopyOut(s, n, junk);
      OthersSameTwice(old(bodies), old(handles), old(bodies), middle, bodies, handles, s);
      AccountsAfter(old(bodies), old(handles), old(bodies), middle, bodies, handles, Leaves(middle, s));
      return false;
    }

    /** Room for `n` characters in a body of one's own. */
    method Reserve(s: StrId, n: int, junk: nat -> byte)
      requires Valid() && s in handles
      modifies this
      ensures Exclusive(s) && OthersSame(old(bodies), old(handles), bodies, handles, s)
      ensures BodyOf(s).size >= n && BodyOf(s).size >= |old(Text(bodies, handles[s]))|
      ensures BodyOf(s).data[..|old(Text(bodies, handles[s]))|] == old(Text(bodies, handles[s]))
      ensures Accounts(old(bodies), old(handles), bodies, handles,
                       Left(old(handles), s, |old(Text(bodies, handles[s]))|, n))
    {
      hide Accounts;
      var oldSize := GetLength(s);
      var want := if n <= 1 then 1 else n;
      if oldSize < want {
        var thrown := Realloc(s, want, junk);
        return;
      }
      CopyOnWrite(s, junk(0));
    }

    /**
     * Cut at `maxLength` characters and terminate there, in place: every string on the same body is cut.
     * Also makes a C string again of a body of one's own whose bytes are not one for the moment.
     */
    method Truncate(s: StrId, maxLength: int)
      requires s in handles
      requires Valid() || (Exclusive(s) && 0 !in BodyOf(s).data[..Min(Max(maxLength, 0), BodyOf(s).size)])
      modifies `bodies
      ensures Valid()
      ensures old(Valid()) ==> Values() == SharersCut(old(Values()), handles, s, Max(maxLength, 0))
      ensures old(Exclusive(s) && 0 !in BodyOf(s).data[..Min(Max(maxLength, 0), BodyOf(s).size)]) ==>
                && OthersSame(old(bodies), old(handles), bodies, handles, s)
                && Text(bodies, handles[s]) == old(BodyOf(s).data[..Min(Max(maxLength, 0), BodyOf(s).size)])
      ensures Accounts(old(bodies), handles, bodies, handles, Null) && bodies.Keys == old(bodies).Keys
    {
      hide Sound;
      hide OthersSame;
      hide Accounts;
      AccountsSame(bodies, handles);
      if !handles[s].At? {
        NothingToCut(bodies, handles, next, s, Max(maxLength, 0));
        return;
      }
      HasBody(bodies, handles, next, s);
      var id := handles[s].id;
      var body := bodies[id];
      var size := if maxLength <= 0 then 0 else maxLength;
      if size >= body.size {
        size := body.size;
      }
      var cut := Body(size, body.refs, body.data[size := 0]);
      assert cut.data[..size] == body.data[..size];
      AccountsRewrite(bodies, handles, id, cut);
      if Valid() {
        CutShared(bodies, handles, next, s, Max(maxLength, 0), cut);
      }
      if Exclusive(s) && 0 !in body.data[..size] {
        Settle(bodies, handles, next, s, cut);
      }
      bodies := bodies[id := cut];
    }

    /** The same where the operations below use it: on a body of one's own. */
    method TruncateOwn(s: StrId, size: nat)
      requires Exclusive(s) && size <= BodyOf(s).size && 0 !in BodyOf(s).data[..size]
      modifies `bodies
      ensures Valid() && OthersSame(old(bodies), old(handles), bodies, handles, s)
      ensures Text(bodies, handles[s]) == old(BodyOf(s).data[..size])
      ensures Accounts(old(bodies), handles, bodies, handles, Null) && bodies.Keys == old(bodies).Keys
    {
      hide Sound;
      hide OthersSame;
      hide Accounts;
      hide View;
      hide SharersCut;
      Truncate(s, size);
    }

    // ---- The operations ----

    method WriteBytes(s: StrId, at: nat, bytes: seq<byte>)
      requires Exclusive(s) && at + |bytes| < |BodyOf(s).data|
      modifies `bodies
      ensures Exclusive(s) && OthersSame(old(bodies), old(handles), bodies, handles, s)
      ensures var b, c := old(BodyOf(s)), BodyOf(s);
              && c.size == b.size && |c.data| == |b.data|
              && c.data[..at + |bytes|] == b.data[..at] + bytes
      ensures Accounts(old(bodies), handles, bodies, handles, Null) && bodies.Keys == old(bodies).Keys
    {
      hide Accounts;
      var id := handles[s].id;
      var body := bodies[id];
      var data := body.data[..at] + bytes + body.data[at + |bytes|..];
      Rewrite(bodies, handles, next, s, body.(data := data));
      AccountsRewrite(bodies, handles, id, body.(data := data));
      bodies := bodies[id := body.(data := data)];
    }

    /** Append the string of `t`, which may be `s` itself or share its body. */
    method Concatenate(s: StrId, t: Option<StrId>, junk: nat -> byte)
      requires Valid() && s in handles && (t.Some? ==> t.value in handles)
      modifies this
      ensures Valid()
      ensures Values() == old(Values())[s := old(Values())[s] + (if t.None? then [] else old(Values())[t.value])]
      ensures Accounts(old(bodies), old(handles), bodies, handles,
                       if t.None? || old(Values())[t.value] == [] then Null else Leaves(old(handles), s))
    {
      hide Accounts;
      AccountsSame(bodies, handles);
      ghost var left, right := Values()[s], if t.None? then [] else Values()[t.value];
      if t.None? || !handles[t.value].At? {
        assert left + [] == left;
        return;
      }
      var otherLength := GetLength(t.value);
      if otherLength == 0 {
        assert left + [] == left;
        return;
      }
      var currentLength := GetLength(s);
      Reserve(s, currentLength + otherLength, junk);
      var source := bodies[handles[t.value].id].data[..otherLength];
      assert source == right by {
        if t.value == s {
          assert source == BodyOf(s).data[..currentLength];
        }
      }
      ghost var leaves := Leaves(old(handles), s);
      ghost var bodies', handles' := bodies, handles;
      AppendAndCut(s, currentLength, source, old(bodies), old(handles));
      AccountsBefore(old(bodies), old(handles), bodies', handles', bodies, handles, leaves);
    }

    /** Append a C string; None is a null pointer. */
    method ConcatenateCstr(s: StrId, bytes: Option<seq<byte>>, junk: nat -> byte)
      requires Valid() && s in handles && (bytes.Some? ==> 0 !in bytes.value)
      modifies this
      ensures Valid()
      ensures Values() == old(Values())[s := old(Values())[s] + (if bytes.None? then [] else bytes.value)]
      ensures var length := |old(Values())[s]|;
              Accounts(old(bodies), old(handles), bodies, handles,
                       if bytes.None? then Null else Left(old(handles), s, length, length + |bytes.value|))
    {
      hide Accounts;
      AccountsSame(bodies, handles);
      ghost var left := Values()[s];
      if bytes.None? {
        assert left + [] == left;
        return;
      }
      var currentLength := GetLength(s);
      Reserve(s, currentLength + |bytes.value|, junk);
      ghost var leaves := Left(old(handles), s, currentLength, currentLength + |bytes.value|);
      ghost var bodies', handles' := bodies, handles;
      AppendAndCut(s, currentLength, bytes.value, old(bodies), old(handles));
      AccountsBefore(old(bodies), old(handles), bodies', handles', bodies, handles, leaves);
    }

    method AppendAndCut(s: StrId, at: nat, bytes: seq<byte>, ghost bodies0: Bodies, ghost handles0: Handles)
      requires Exclusive(s) && OthersSame(bodies0, handles0, bodies, handles, s)
      requires at + |bytes| <= BodyOf(s).size && 0 !in BodyOf(s).data[..at] && 0 !in bytes
      modifies `bodies
      ensures Valid()
      ensures Values() == View(bodies0, handles0)[s := old(BodyOf(s).data[..at]) + bytes]
      ensures Accounts(old(bodies), handles, bodies, handles, Null) && bodies.Keys == old(bodies).Keys
    {
      hide Accounts;
      WriteBytes(s, at, bytes);
      ghost var bodies' := bodies;
      TruncateOwn(s, at + |bytes|);
      AccountsAfter(old(bodies), handles, bodies', handles, bodies, handles, Null);
      ViewUpdated(bodies0, handles0, bodies, handles, s);
    }

    /** A null pointer becomes the shared empty string; nothing reads differently. */
    method Normalise(s: StrId)
      requires Valid() && s in handles
      modifies `handles
      ensures Valid() && Values() == old(Values())
      ensures handles == old(handles)[s := if old(handles[s]) == Null then Sentinel else old(handles[s])]
      ensures Accounts(old(bodies), old(handles), bodies, handles, Null)
    {
      hide Accounts;
      AccountsSame(bodies, handles);
      if handles[s] == Null {
        Release(bodies, handles, next, s);
        AccountsRelease(bodies, handles, next, s);
        ViewUpdated(bodies, handles, bodies, handles[s := Sentinel], s);
        assert Values()[s] == [];
        handles := handles[s := Sentinel];
      }
    }

    /** Drop the leading characters the comparison recognises as `ch`. */
    method TrimLeft(s: StrId, ch: byte, junk: byte)
      requires Valid() && s in handles
      modifies this
      ensures Valid()
      ensures var text := old(Values())[s]; Values() == old(Values())[s := text[TrimCount(text, ch)..]]
      ensures Accounts(old(bodies), old(handles), bodies, handles, Null)
    {
      hide Accounts;
      ghost var text := Values()[s];
      Normalise(s);
      if ch == 0 {
        assert TrimCount(text, ch) == 0;
        return;
      }
      var length := GetLength(s);
      var count := CountLeading(s, ch);
      if count > 0 {
        ghost var bodies0, handles0 := bodies, handles;
        CopyOnWrite(s, junk);
        AccountsAfter(old(bodies), old(handles), bodies0, handles0, bodies, handles, Null);
        ghost var bodies', handles' := bodies, handles;
        MoveFront(s, count, length, bodies0, handles0);
        AccountsAfter(old(bodies), old(handles), bodies', handles', bodies, handles, Null);
      } else {
        assert text[0..] == text;
      }
    }

    method CountLeading(s: StrId, ch: byte) returns (count: nat)
      requires Valid() && s in handles
      ensures count == TrimCount(Values()[s], ch)
    {
      var text := if handles[s].At? then bodies[handles[s].id].data[..bodies[handles[s].id].size] else [];
      count := 0;
      assert text[0..] == text;
      while count < |text| && SameChar(text[count], ch)
        invariant count <= |text| && count + TrimCount(text[count..], ch) == TrimCount(text, ch)
      {
        assert text[count..][1..] == text[count + 1..];
        count := count + 1;
      }
    }

    /** memmove of the characters behind the trimmed ones, terminator included, then the cut. */
    method MoveFront(s: StrId, count: nat, length: nat, ghost bodies0: Bodies, ghost handles0: Handles)
      requires Exclusive(s) && OthersSame(bodies0, handles0, bodies, handles, s)
      requires 0 < count <= length == BodyOf(s).size && 0 !in BodyOf(s).data[..length]
      modifies `bodies
      ensures Valid() && Values() == View(bodies0, handles0)[s := old(BodyOf(s).data[count..length])]
      ensures Accounts(old(bodies), handles, bodies, handles, Null)
    {
      hide Accounts;
      hide Sound;
      hide OthersSame;
      HasBody(bodies, handles, next, s);
      ghost var was := BodyOf(s).data;
      var tail := bodies[handles[s].id].data[count..length + 1];
      WriteBytes(s, 0, tail);
      ghost var bodies' := bodies;
      OthersSameTwice(bodies0, handles0, old(bodies), handles, bodies', handles, s);
      ghost var now := BodyOf(s).data;
      assert now[..|tail|] == tail by {
        assert was[..0] + tail == tail;
      }
      assert now[..length - count] == now[..|tail|][..length - count] == was[count..length];
      assert was[count..length] == was[..length][count..];
      TruncateOwn(s, length - count);
      AccountsAfter(old(bodies), handles, bodies', handles, bodies, handles, Null);
      OthersSameTwice(bodies0, handles0, bodies', handles, bodies, handles, s);
      ViewUpdated(bodies0, handles0, bodies, handles, s);
    }

    /** Cut in front of the first `ch`. */
    method TruncateAtFirstOccurrence(s: StrId, ch: byte, junk: nat -> byte)
      requires Valid() && s in handles
      modifies this
      ensures Valid()
      ensures var text := old(Values())[s]; Values() == old(Values())[s := text[..IndexOf(text, ch)]]
      ensures Accounts(old(bodies), old(handles), bodies, handles, Null)
    {
      hide Accounts;
      ghost var text := Values()[s];
      Normalise(s);
      if handles[s] == Sentinel || ch == 0 {
        assert text[..IndexOf(text, ch)] == text;
        return;
      }
      var p := FindChar(s, ch);
      var length := GetLength(s);
      if p < length {
        ghost var bodies', handles' := bodies, handles;
        CutAt(s, p, junk);
        AccountsAfter(old(bodies), old(handles), bodies', handles', bodies, handles, Null);
      } else {
        assert text[..p] == text;
      }
    }

    method CutAt(s: StrId, p: nat, junk: nat -> byte)
      requires Valid() && s in handles && p < |Values()[s]|
      modifies this
      ensures Valid() && Values() == old(Values())[s := old(Values())[s][..p]]
      ensures Accounts(old(bodies), old(handles), bodies, handles, Null)
    {
      hide Accounts;
      hide Sound;
      hide OthersSame;
      hide View;
      SoundReadable(bodies, handles, next, {});
      ViewAt(bodies, handles, s);
      Pointed(bodies, handles, next, {}, s);
      ghost var text := Text(bodies, handles[s]);
      Reserve(s, p, junk);
      HasBody(bodies, handles, next, s);
      assert BodyOf(s).data[..p] == BodyOf(s).data[..|text|][..p] == text[..p];
      ghost var bodies', handles' := bodies, handles;
      TruncateOwn(s, p);
      AccountsAfter(old(bodies), old(handles), bodies', handles', bodies, handles, Null);
      OthersSameTwice(old(bodies), old(handles), bodies', handles', bodies, handles, s);
      ViewUpdated(old(bodies), old(handles), bodies, handles, s);
    }

    method FindChar(s: StrId, ch: byte) returns (p: nat)
      requires Valid() && s in handles && handles[s].At?
      ensures p == IndexOf(Values()[s], ch)
    {
      var body := bodies[handles[s].id];
      p := 0;
      while body.data[p] != 0
        invariant p <= body.size
        invariant forall i :: 0 <= i < p ==> body.data[i] != ch
        decreases body.size - p
      {
        if body.data[p] == ch {
          break;
        }
        p := p + 1;
      }
      IndexOfUnique(body.data[..body.size], ch, p);
    }
  }

  // ---- Whole runs ----

  datatype Use =
    | New(s: StrId, text: Option<seq<byte>>)
    | Copy(s: StrId, from: StrId)
    | Set(s: StrId, from: StrId)
    | Drop(s: StrId)
    | Cut(s: StrId, n: int)
    | CutBefore(s: StrId, ch: byte)
    | Trim(s: StrId, ch: byte)
    | Append(s: StrId, from: StrId)

  /** Strings are created once and used while they live; text holds no NUL. */
  predicate Proper(u: Use, handles: Handles) {
    match u
    case New(s, text) => s !in handles && (text.Some? ==> 0 !in text.value)
    case Copy(s, from) => s !in handles && from in handles
    case Set(s, from) => s in handles && from in handles
    case Append(s, from) => s in handles && from in handles
    case _ => u.s in handles
  }

  /** The strings as separate values after one use; a cut in place reaches the strings on the same body. */
  ghost function ValuesAfter(values: map<StrId, seq<byte>>, handles: Handles, u: Use): map<StrId, seq<byte>>
    requires Proper(u, handles) && values.Keys == handles.Keys
  {
    match u
    case New(s, text) => values[s := if text.None? then [] else text.value]
    case Copy(s, from) => values[s := values[from]]
    case Set(s, from) => values[s := values[from]]
    case Drop(s) => values - {s}
    case Cut(s, n) => SharersCut(values, handles, s, Max(n, 0))
    case CutBefore(s, ch) => values[s := values[s][..IndexOf(values[s], ch)]]
    case Trim(s, ch) => values[s := values[s][TrimCount(values[s], ch)..]]
    case Append(s, from) => values[s := values[s] + values[from]]
  }

  /** One use. Only appending something to a string that has a body leaves a count behind. */
  method UseOnce(heap: StringHeap, u: Use, junk: nat -> byte)
    requires heap.Valid() && Proper(u, heap.handles)
    modifies heap
    ensures heap.Valid() && heap.Values() == ValuesAfter(old(heap.Values()), old(heap.handles), u)
    ensures var appends := u.Append? && old(heap.Values())[u.from] != [];
            var leaves := if appends then Leaves(old(heap.handles), u.s) else Null;
            Accounts(old(heap.bodies), old(heap.handles), heap.bodies, heap.handles, leaves)
  {
    hide Accounts;
    match u
    case New(s, text) => heap.FromBytes(s, text);
    case Copy(s, from) => heap.CopyConstruct(s, from);
    case Set(s, from) => heap.Assign(s, from);
    case Drop(s) => heap.Destroy(s);
    case Cut(s, n) => heap.Truncate(s, n);
    case CutBefore(s, ch) => heap.TruncateAtFirstOccurrence(s, ch, junk);
    case Trim(s, ch) => heap.TrimLeft(s, ch, junk(0));
    case Append(s, from) => heap.Concatenate(s, Some(from), junk);
  }

  /**
   * A run of uses, improper ones passed over: without appends, counts that were exactly the handles stay
   * exactly the handles.
   */
  method UseAll(heap: StringHeap, uses: seq<Use>, junk: nat -> byte)
    requires heap.Valid()
    modifies heap
    ensures heap.Valid()
    ensures old(Exact(heap.bodies, heap.handles)) && (forall u <- uses :: !u.Append?) ==>
              Exact(heap.bodies, heap.handles)
  {
    hide Accounts;
    hide Exact;
    var k := 0;
    while k < |uses|
      invariant 0 <= k <= |uses| && heap.Valid()
      invariant old(Exact(heap.bodies, heap.handles)) && (forall u <- uses :: !u.Append?) ==>
                  Exact(heap.bodies, heap.handles)
    {
      if Proper(uses[k], heap.handles) {
        ghost var bodies, handles := heap.bodies, heap.handles;
        UseOnce(heap, uses[k], junk);
        if Exact(bodies, handles) && !uses[k].Append? {
          ExactStays(bodies, handles, heap.bodies, heap.handles);
        }
      }
      k := k + 1;
    }
  }

  /** Destroying every string frees every body, if counts were exactly the handles. */
  method DestroyAll(heap: StringHeap)
    requires heap.Valid() && Exact(heap.bodies, heap.handles)
    modifies heap
    ensures heap.handles == map[] && heap.bodies == map[]
  {
    while heap.handles != map[]
      invariant heap.Valid() && Exact(heap.bodies, heap.handles)
      decreases heap.handles.Keys
    {
      var s :| s in heap.handles;
      ghost var bodies, handles := heap.bodies, heap.handles;
      heap.Destroy(s);
      ExactStays(bodies, handles, heap.bodies, heap.handles);
    }
    ExactAndUnusedIsEmpty(heap.bodies, heap.next);
  }

  lemma {:induction false} IndexOfUnique(text: seq<byte>, ch: byte, p: nat)
    requires p <= |text| && (p < |text| ==> text[p] == ch) && forall i :: 0 <= i < p ==> text[i] != ch
    ensures IndexOf(text, ch) == p
  {
    if p > 0 {
      IndexOfUnique(text[1..], ch, p - 1);
    }
  }
}
