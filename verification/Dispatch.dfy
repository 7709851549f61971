/**
 * Dispatch of received messages through compressed and encrypted wrappers. The game's reader, unwrap
 * functions, peer test and handlers are parameters; what is proved is what the dispatcher does with them.
 */
module Dispatch {
  import opened Bytes

  const STACK_MESSAGE_BYTES := 0x30

  type Block = b: seq<byte> | |b| == STACK_MESSAGE_BYTES witness seq(STACK_MESSAGE_BYTES, i => 0)

  /** The bytes of a message that say where it came from: two words, a port and a flag. */
  predicate MetaByte(i: int) {
    0x1C <= i < 0x20 || 0x24 <= i < 0x2A || i == 0x2C
  }

  /** Eleven of the 48 bytes. */
  lemma MetaBytesAre()
    ensures (set i | 0 <= i < STACK_MESSAGE_BYTES && MetaByte(i)) == {28, 29, 30, 31, 36, 37, 38, 39, 40, 41, 44}
    ensures |{28, 29, 30, 31, 36, 37, 38, 39, 40, 41, 44}| == 11
  {
  }

  predicate SameMeta(a: Block, b: Block) {
    forall i :: 0 <= i < STACK_MESSAGE_BYTES && MetaByte(i) ==> a[i] == b[i]
  }

  function WithMeta(dst: Block, src: Block): (b: Block)
    ensures SameMeta(b, src)
    ensures forall i :: 0 <= i < STACK_MESSAGE_BYTES && !MetaByte(i) ==> b[i] == dst[i]
  {
    seq(STACK_MESSAGE_BYTES, i requires 0 <= i < STACK_MESSAGE_BYTES => if MetaByte(i) then src[i] else dst[i])
  }

  /** The read position and the bytes in which a game function leaves the message it was called with. */
  datatype Left = Left(offset: nat, block: Block)

  /**
   * What a message holds for the game's functions: what reading its type gives and how far that moves
   * the read position, what the RMI handler would report, how its handler or unwrap function would
   * leave it, and what unwrapping it would produce.
   */
  datatype Content =
    | Unreadable(readBits: nat)
    | Typed(rawType: nat, readBits: nat, outFlag: bool, left: Left, unwrapped: Option<Msg>)
  datatype Msg = Msg(content: Content, block: Block, offset: nat)

  datatype Route =
    | Rmi
    | UserMessage
    | Guarded(rva: nat, named: bool)   // skipped for messages from a remote peer
    | Direct(rva: nat, named: bool)
    | Unwrap(encrypted: bool)
    | Noop
    | Unhandled

  const RVA_RMI := 0xD64F10
  const RVA_USER_MESSAGE := 0xD65170

  function RouteOf(t: byte): Route {
    match t
    case 1 => Rmi
    case 2 => UserMessage
    case 3 => Guarded(0xD5FFD0, false)
    case 4 => Guarded(0xD62930, false)
    case 6 => Guarded(0xD62FD0, false)
    case 8 => Guarded(0xD60020, false)
    case 9 => Guarded(0xD60070, false)
    case 10 => Guarded(0xD64760, false)
    case 11 => Guarded(0xD5FF60, false)
    case 13 => Guarded(0xD61490, false)
    case 15 => Guarded(0xD645C0, false)
    case 17 => Guarded(0xD608D0, false)
    case 19 => Direct(0xD63510, true)
    case 24 => Guarded(0xD63750, false)
    case 25 => Guarded(0xD60A50, true)
    case 26 => Guarded(0xD63A70, true)
    case 29 => Guarded(0xD64D60, false)
    case 31 => Direct(0xD5FCD0, false)
    case 32 => Direct(0xD5FD00, false)
    case 33 => Direct(0xD61F20, false)
    case 34 => Direct(0xD60E10, false)
    case 35 => Guarded(0xD625E0, true)
    case 36 => Direct(0xD61760, true)
    case 37 => Unwrap(false)
    case 38 => Unwrap(false)
    case 39 => Unwrap(true)
    case 40 => Direct(0xD62110, true)
    case 41 => Direct(0xD60FB0, false)
    case 49 => Direct(0xD62330, false)
    case 50 => Direct(0xD61120, false)
    case _ => if t in {7, 14, 18, 20, 22, 27, 28, 30, 48} then Noop else Unhandled
  }

  /** Only the low byte of what was read counts. */
  function ContentRoute(c: Content): Route
    requires c.Typed?
  {
    RouteOf(c.rawType % 0x100)
  }

  predicate IsWrapper(c: Content) {
    c.Typed? && ContentRoute(c).Unwrap?
  }

  /** A dispatch and the stack message it dispatches in turn differ in depth, which names the messages. */
  datatype Event =
    | Constructed(depth: nat)
    | Destroyed(depth: nat)
    | UnwrapCalled(depth: nat, encrypted: bool)
    | PeerTested(seen: Msg)
    | Handled(rva: nat, named: bool, seen: Msg)
    | Rewound(depth: nat, byteOffset: nat)

  datatype Outcome = Outcome(ok: bool, events: seq<Event>, left: Left)

  /** The message after its type was read. */
  function TypeRead(m: Msg): Msg {
    m.(offset := m.offset + m.content.readBits)
  }

  /** The stack message: what the unwrap function wrote, with the metadata of the outer message. */
  function StackMessage(inner: Msg, outer: Block): Msg {
    inner.(block := WithMeta(inner.block, outer))
  }

  /** The common end of every branch but the wrappers': a message not processed is rewound. */
  function Finish(m: Msg, depth: nat, ok: bool, events: seq<Event>, left: Left): Outcome {
    if ok then Outcome(true, events, left)
    else Outcome(false, events + [Rewound(depth, m.offset / 8)], left.(offset := m.offset / 8 * 8))
  }

  /** What one dispatch does: its result, everything it calls, and how it leaves the message. */
  function Process(m: Msg, depth: nat, remote: Msg -> bool): Outcome
    decreases m.content, 1
  {
    var t := TypeRead(m);
    var idle := Left(t.offset, t.block);
    if m.content.Unreadable? then Finish(m, depth, false, [], idle)
    else
      var left := m.content.left;
      match ContentRoute(m.content)
      case Rmi => Finish(m, depth, m.content.outFlag, [Handled(RVA_RMI, false, t)], left)
      case UserMessage => Finish(m, depth, false, [Handled(RVA_USER_MESSAGE, false, t)], left)
      case Guarded(rva, named) =>
        if remote(t) then Finish(m, depth, true, [PeerTested(t)], idle)
        else Finish(m, depth, true, [PeerTested(t), Handled(rva, named, t)], left)
      case Direct(rva, named) => Finish(m, depth, true, [Handled(rva, named, t)], left)
      case Noop => Finish(m, depth, true, [], idle)
      case Unhandled => Finish(m, depth, false, [], idle)
      case Unwrap(_) => ProcessWrapped(m.content, depth, remote)
  }

  /** The wrapper branch: unwrap into a stack message and dispatch that. It never rewinds. */
  function ProcessWrapped(c: Content, depth: nat, remote: Msg -> bool): Outcome
    requires IsWrapper(c)
    decreases c, 0
  {
    var opening := [Constructed(depth), UnwrapCalled(depth, ContentRoute(c).encrypted)];
    match c.unwrapped
    case None => Outcome(false, opening + [] + [Destroyed(depth)], c.left)
    case Some(inner) =>
      var r := Process(StackMessage(inner, c.left.block), depth + 1, remote);
      Outcome(r.ok, opening + r.events + [Destroyed(depth)], c.left)
  }

  // ---- The types, by number ----

  /** The types whose handler is called only for messages that are not from a remote peer. */
  const GUARDED: set<nat> := {3, 4, 6, 8, 9, 10, 11, 13, 15, 17, 24, 25, 26, 29, 35}
  /** Those whose handler is always called, apart from 1 and 2. */
  const UNGUARDED: set<nat> := {19, 31, 32, 33, 34, 36, 40, 41, 49, 50}
  /** Those that count as processed without a handler. */
  const NOOPS: set<nat> := {7, 14, 18, 20, 22, 27, 28, 30, 48}
  /** Those whose handler is given the body text, too. */
  const NAMED: set<nat> := {19, 25, 26, 35, 36, 40}

  const HANDLERS: map<nat, nat> := map[
    1 := 0xD64F10, 2 := 0xD65170, 3 := 0xD5FFD0, 4 := 0xD62930, 6 := 0xD62FD0, 8 := 0xD60020, 9 := 0xD60070,
    10 := 0xD64760, 11 := 0xD5FF60, 13 := 0xD61490, 15 := 0xD645C0, 17 := 0xD608D0, 19 := 0xD63510,
    24 := 0xD63750, 25 := 0xD60A50, 26 := 0xD63A70, 29 := 0xD64D60, 31 := 0xD5FCD0, 32 := 0xD5FD00,
    33 := 0xD61F20, 34 := 0xD60E10, 35 := 0xD625E0, 36 := 0xD61760, 40 := 0xD62110, 41 := 0xD60FB0,
    49 := 0xD62330, 50 := 0xD61120]

  /** Every entry of the table. */
  lemma RouteTable(t: byte)
    ensures RouteOf(t) == Rmi <==> t == 1
    ensures RouteOf(t) == UserMessage <==> t == 2
    ensures RouteOf(t).Guarded? <==> t in GUARDED
    ensures RouteOf(t).Direct? <==> t in UNGUARDED
    ensures RouteOf(t).Unwrap? <==> t == 37 || t == 38 || t == 39
    ensures RouteOf(t).Unwrap? ==> (RouteOf(t).encrypted <==> t == 39)
    ensures RouteOf(t) == Noop <==> t in NOOPS
  {
  }

  lemma GuardedHandlers(t: byte)
    ensures RouteOf(t).Guarded? ==>
              t in HANDLERS && RouteOf(t).rva == HANDLERS[t] && (RouteOf(t).named <==> t in NAMED)
  {
  }

  lemma UnguardedHandlers(t: byte)
    ensures RVA_RMI == HANDLERS[1] && RVA_USER_MESSAGE == HANDLERS[2]
    ensures RouteOf(t).Direct? ==>
              t in HANDLERS && RouteOf(t).rva == HANDLERS[t] && (RouteOf(t).named <==> t in NAMED)
  {
  }

  /** The type number that was read. */
  function TypeOf(c: Content): nat
    requires c.Typed?
  {
    c.rawType % 256
  }

  /** Is a message of this content, dispatched on its own and no wrapper, processed? */
  predicate Processed(c: Content) {
    c.Typed? && if TypeOf(c) == 1 then c.outFlag else TypeOf(c) in GUARDED + UNGUARDED + NOOPS
  }

  /** What is called for such a message, by its type number. */
  function Called(m: Msg, remote: Msg -> bool): seq<Event>
    requires m.content.Typed? && TypeOf(m.content) !in {37, 38, 39}
  {
    var number, t := TypeOf(m.content), m.(offset := m.offset + m.content.readBits);
    (if number in GUARDED then [PeerTested(t)] else []) +
    (if number !in HANDLERS || (number in GUARDED && remote(t)) then []
     else [Handled(HANDLERS[number], number in NAMED, t)])
  }

  /**
   * The result of a dispatch: that of the innermost message, by its type number - the RMI handler's flag
   * for 1, no for 2 and for types not listed, yes for the others, also when the guard stops the handler.
   */
  lemma {:induction false} ResultByType(m: Msg, depth: nat, remote: Msg -> bool)
    ensures Process(m, depth, remote).ok <==> Processed(Innermost(m).content)
    decreases m.content
  {
    hide RouteOf;
    if m.content.Typed? {
      RouteTable(TypeOf(m.content));
      if IsWrapper(m.content) && m.content.unwrapped.Some? {
        ResultByType(StackMessage(m.content.unwrapped.value, m.content.left.block), depth + 1, remote);
      }
    }
  }

  /** What one message that is no wrapper has called and how it is left, by its type number. */
  lemma LeafByType(m: Msg, depth: nat, remote: Msg -> bool)
    requires m.content.Typed? && TypeOf(m.content) !in {37, 38, 39}
    ensures var r, calls := Process(m, depth, remote), Called(m, remote);
            && (r.ok <==> Processed(m.content))
            && r.events == calls + (if r.ok then [] else [Rewound(depth, m.offset / 8)])
            && (calls != [] && calls[|calls| - 1].Handled? ==> r.left.block == m.content.left.block)
            && (calls == [] || calls[|calls| - 1].PeerTested? ==> r.left.block == m.block)
            && r.left.offset == if !r.ok then m.offset / 8 * 8
                                else if calls != [] && calls[|calls| - 1].Handled? then m.content.left.offset
                                else m.offset + m.content.readBits
  {
    hide RouteOf;
    RouteTable(TypeOf(m.content));
    GuardedHandlers(TypeOf(m.content));
    UnguardedHandlers(TypeOf(m.content));
    NoHandlerForNoops(TypeOf(m.content));
  }

  lemma NoHandlerForNoops(t: byte)
    ensures t in HANDLERS <==> t == 1 || t == 2 || t in GUARDED || t in UNGUARDED
    ensures t in GUARDED ==> t !in UNGUARDED && t != 1 && t != 2
    ensures t in NOOPS ==> t !in HANDLERS
    ensures t == 1 || t == 2 ==> t !in NAMED
  {
  }

  /**
   * A wrapper is of type 37, 38 or 39, encrypted if it is 39; it is unwrapped once, between its own
   * stack message's construction and destruction, and left as its unwrap function leaves it.
   */
  lemma WrapperByType(m: Msg, depth: nat, remote: Msg -> bool)
    ensures IsWrapper(m.content) <==> m.content.Typed? && TypeOf(m.content) in {37, 38, 39}
    ensures IsWrapper(m.content) ==>
              var r := Process(m, depth, remote);
              && |r.events| >= 3 && r.left == m.content.left
              && r.events[..2] == [Constructed(depth), UnwrapCalled(depth, TypeOf(m.content) == 39)]
              && r.events[|r.events| - 1] == Destroyed(depth)
  {
    hide RouteOf;
    if m.content.Typed? {
      RouteTable(TypeOf(m.content));
    }
  }

  /** A message whose type cannot be read is rewound and nothing is called. */
  lemma UnreadableIsRewound(m: Msg, depth: nat, remote: Msg -> bool)
    requires m.content.Unreadable?
    ensures Process(m, depth, remote)
         == Outcome(false, [Rewound(depth, m.offset / 8)], Left(m.offset / 8 * 8, m.block))
  {
  }

  // ---- Picking events ----

  /** The events that `keep` accepts, in order. */
  function Only(events: seq<Event>, keep: Event -> bool): seq<Event> {
    if events == [] then [] else (if keep(events[0]) then [events[0]] else []) + Only(events[1..], keep)
  }

  predicate IsVisible(e: Event) {
    e.PeerTested? || e.Handled?
  }

  predicate IsHandled(e: Event) {
    e.Handled?
  }

  predicate IsConstructed(e: Event) {
    e.Constructed?
  }

  predicate IsRewound(e: Event) {
    e.Rewound?
  }

  lemma {:induction false} OnlyConcat(a: seq<Event>, b: seq<Event>, keep: Event -> bool)
    ensures Only(a + b, keep) == Only(a, keep) + Only(b, keep)
  {
    if a == [] {
      assert a + b == b;
    } else {
      assert (a + b)[0] == a[0] && (a + b)[1..] == a[1..] + b;
      OnlyConcat(a[1..], b, keep);
      var first := if keep(a[0]) then [a[0]] else [];
      assert (first + Only(a[1..], keep)) + Only(b, keep) == first + (Only(a[1..], keep) + Only(b, keep));
    }
  }

  lemma OnlyOne(e: Event, keep: Event -> bool)
    ensures Only([e], keep) == if keep(e) then [e] else []
  {
    assert [e][1..] == [];
  }

  lemma OnlyTwo(e: Event, f: Event, keep: Event -> bool)
    ensures Only([e, f], keep) == (if keep(e) then [e] else []) + (if keep(f) then [f] else [])
  {
    assert [e, f] == [e] + [f];
    OnlyConcat([e], [f], keep);
    OnlyOne(e, keep);
    OnlyOne(f, keep);
  }

  /** Of the wrapper branch's own events the picks below see at most the construction. */
  lemma OnlyWrapped(depth: nat, encrypted: bool, events: seq<Event>, keep: Event -> bool)
    requires forall e: Event :: e.Destroyed? || e.UnwrapCalled? ==> !keep(e)
    ensures Only([Constructed(depth), UnwrapCalled(depth, encrypted)] + events + [Destroyed(depth)], keep)
         == (if keep(Constructed(depth)) then [Constructed(depth)] else []) + Only(events, keep)
  {
    var opening := [Constructed(depth), UnwrapCalled(depth, encrypted)];
    OnlyConcat(opening + events, [Destroyed(depth)], keep);
    OnlyConcat(opening, events, keep);
    OnlyTwo(Constructed(depth), UnwrapCalled(depth, encrypted), keep);
    OnlyOne(Destroyed(depth), keep);
  }

  // ---- Transparency ----

  /** The message inside all the wrappers that can be opened, as its dispatch finds it. */
  function Innermost(m: Msg): (d: Msg)
    ensures IsWrapper(d.content) ==> d.content.unwrapped.None?
    decreases m.content
  {
    if IsWrapper(m.content) && m.content.unwrapped.Some?
    then Innermost(StackMessage(m.content.unwrapped.value, m.content.left.block))
    else m
  }

  /** The number of wrappers opened on the way there. */
  function Opened(c: Content): nat {
    if IsWrapper(c) && c.unwrapped.Some? then 1 + Opened(c.unwrapped.value.content) else 0
  }

  /**
   * Wrappers are transparent at any depth: the result, the peer tests and the handler calls are those of
   * the innermost message received on its own, and that is the message each of them is given.
   */
  lemma {:induction false} WrapperTransparency(m: Msg, depth: nat, at: nat, remote: Msg -> bool)
    ensures var r, inner := Process(m, depth, remote), Process(Innermost(m), at, remote);
            && r.ok == inner.ok
            && Only(r.events, IsVisible) == Only(inner.events, IsVisible)
            && forall e <- Only(r.events, IsVisible) :: IsVisible(e) && e.seen == TypeRead(Innermost(m))
    decreases m.content
  {
    hide Process;
    hide RouteOf;
    if IsWrapper(m.content) {
      ProcessOfWrapper(m, depth, remote);
      var e := ContentRoute(m.content).encrypted;
      if m.content.unwrapped.Some? {
        var inner := StackMessage(m.content.unwrapped.value, m.content.left.block);
        WrapperTransparency(inner, depth + 1, at, remote);
        OnlyWrapped(depth, e, Process(inner, depth + 1, remote).events, IsVisible);
      } else {
        ProcessOfWrapper(m, at, remote);
        OnlyWrapped(depth, e, [], IsVisible);
        OnlyWrapped(at, e, [], IsVisible);
      }
    } else {
      SameAtAnyDepth(m, depth, at, remote);
      LeafVisible(m, depth, remote);
      LeafVisible(m, at, remote);
    }
  }

  lemma SameAtAnyDepth(m: Msg, depth: nat, at: nat, remote: Msg -> bool)
    requires !IsWrapper(m.content)
    ensures Process(m, depth, remote).ok == Process(m, at, remote).ok
  {
  }

  /** What the game gets to see of a message that is not a wrapper. */
  function Shown(m: Msg, remote: Msg -> bool): seq<Event>
    requires !IsWrapper(m.content)
  {
    var t := TypeRead(m);
    if m.content.Unreadable? then []
    else
      match ContentRoute(m.content)
      case Rmi => [Handled(RVA_RMI, false, t)]
      case UserMessage => [Handled(RVA_USER_MESSAGE, false, t)]
      case Guarded(rva, named) => if remote(t) then [PeerTested(t)] else [PeerTested(t), Handled(rva, named, t)]
      case Direct(rva, named) => [Handled(rva, named, t)]
      case Noop => []
      case Unhandled => []
  }

  lemma LeafEvents(m: Msg, depth: nat, remote: Msg -> bool)
    requires !IsWrapper(m.content)
    ensures var r := Process(m, depth, remote);
            r.events == Shown(m, remote) + (if r.ok then [] else [Rewound(depth, m.offset / 8)])
  {
    hide RouteOf;
  }

  /** At most a peer test, then at most a handler call. */
  lemma ShownShape(m: Msg, remote: Msg -> bool)
    requires !IsWrapper(m.content)
    ensures var shown := Shown(m, remote);
            && |shown| <= 2
            && (|shown| == 1 ==> IsVisible(shown[0]) && (shown[0].Handled? <==> Delivers(m, remote)))
            && (|shown| == 2 ==> shown[0].PeerTested? && shown[1].Handled?)
            && (Delivers(m, remote) ==> shown != []) && (|shown| == 2 ==> Delivers(m, remote))
  {
    hide RouteOf;
  }

  lemma ShownPicks(m: Msg, remote: Msg -> bool)
    requires !IsWrapper(m.content)
    ensures Only(Shown(m, remote), IsVisible) == Shown(m, remote)
    ensures Only(Shown(m, remote), IsConstructed) == [] && Only(Shown(m, remote), IsRewound) == []
    ensures |Only(Shown(m, remote), IsHandled)| == if Delivers(m, remote) then 1 else 0
  {
    hide Shown;
    hide Delivers;
    ShownShape(m, remote);
    var shown := Shown(m, remote);
    if |shown| == 1 {
      var e := shown[0];
      assert shown == [e];
      OnlyOne(e, IsVisible);
      OnlyOne(e, IsConstructed);
      OnlyOne(e, IsRewound);
      OnlyOne(e, IsHandled);
    } else if |shown| == 2 {
      var e, f := shown[0], shown[1];
      assert shown == [e, f];
      OnlyTwo(e, f, IsVisible);
      OnlyTwo(e, f, IsConstructed);
      OnlyTwo(e, f, IsRewound);
      OnlyTwo(e, f, IsHandled);
    }
  }

  lemma LeafPicks(m: Msg, depth: nat, remote: Msg -> bool, keep: Event -> bool)
    requires !IsWrapper(m.content)
    ensures var r, rewound := Process(m, depth, remote), Rewound(depth, m.offset / 8);
            Only(r.events, keep) == Only(Shown(m, remote), keep) + (if !r.ok && keep(rewound) then [rewound] else [])
  {
    LeafEvents(m, depth, remote);
    var rewound := Rewound(depth, m.offset / 8);
    OnlyConcat(Shown(m, remote), [rewound], keep);
    OnlyOne(rewound, keep);
  }

  lemma LeafVisible(m: Msg, depth: nat, remote: Msg -> bool)
    requires !IsWrapper(m.content)
    ensures Only(Process(m, depth, remote).events, IsVisible) == Shown(m, remote)
    ensures forall e <- Shown(m, remote) :: IsVisible(e) && e.seen == TypeRead(m)
  {
    hide Process;
    hide Shown;
    LeafPicks(m, depth, remote, IsVisible);
    ShownPicks(m, remote);
    ShownIsTypeRead(m, remote);
  }

  lemma ShownIsTypeRead(m: Msg, remote: Msg -> bool)
    requires !IsWrapper(m.content)
    ensures forall e <- Shown(m, remote) :: IsVisible(e) && e.seen == TypeRead(m)
  {
    hide RouteOf;
  }

  lemma ProcessOfWrapper(m: Msg, depth: nat, remote: Msg -> bool)
    requires IsWrapper(m.content)
    ensures Process(m, depth, remote) == ProcessWrapped(m.content, depth, remote)
  {
  }

  /** Do all the unwrap functions on the way leave the metadata of the message they are given alone? */
  ghost predicate MetaKept(m: Msg)
    decreases m.content
  {
    IsWrapper(m.content) && m.content.unwrapped.Some? ==>
      && SameMeta(m.content.left.block, m.block)
      && MetaKept(StackMessage(m.content.unwrapped.value, m.content.left.block))
  }

  /** Then the innermost message is dispatched, its guard included, with the outermost message's metadata. */
  lemma {:induction false} OutermostMetaArrives(m: Msg)
    requires MetaKept(m)
    ensures SameMeta(Innermost(m).block, m.block)
    decreases m.content
  {
    if IsWrapper(m.content) && m.content.unwrapped.Some? {
      OutermostMetaArrives(StackMessage(m.content.unwrapped.value, m.content.left.block));
    }
  }

  /** Does the message reach a handler, if it is dispatched on its own? */
  predicate Delivers(m: Msg, remote: Msg -> bool) {
    m.content.Typed? &&
    match ContentRoute(m.content)
    case Rmi => true
    case UserMessage => true
    case Guarded(_, _) => !remote(TypeRead(m))
    case Direct(_, _) => true
    case Unwrap(_) => false
    case Noop => false
    case Unhandled => false
  }

  /** One handler call when the innermost message has a handler and passes the guard, otherwise none. */
  lemma {:induction false} AtMostOneHandler(m: Msg, depth: nat, remote: Msg -> bool)
    ensures |Only(Process(m, depth, remote).events, IsHandled)| == if Delivers(Innermost(m), remote) then 1 else 0
    decreases m.content
  {
    hide Process;
    hide RouteOf;
    if IsWrapper(m.content) {
      ProcessOfWrapper(m, depth, remote);
      var e := ContentRoute(m.content).encrypted;
      if m.content.unwrapped.Some? {
        var inner := StackMessage(m.content.unwrapped.value, m.content.left.block);
        AtMostOneHandler(inner, depth + 1, remote);
        OnlyWrapped(depth, e, Process(inner, depth + 1, remote).events, IsHandled);
      } else {
        OnlyWrapped(depth, e, [], IsHandled);
      }
    } else {
      LeafPicks(m, depth, remote, IsHandled);
      ShownPicks(m, remote);
    }
  }

  // ---- Constructors and destructors ----

  /**
   * The stack messages alive after `events`, the last one built at the end. None if a message is built
   * twice, destroyed when it is not the last one built, or unwrapped into when it is not.
   */
  function Alive(stack: seq<nat>, events: seq<Event>): Option<seq<nat>>
    decreases |events|
  {
    if events == [] then Some(stack)
    else
      var more := events[1..];
      match events[0]
      case Constructed(d) => if d in stack then None else Alive(stack + [d], more)
      case UnwrapCalled(d, _) => if IsLast(d, stack) then Alive(stack, more) else None
      case Destroyed(d) => if IsLast(d, stack) then Alive(stack[..|stack| - 1], more) else None
      case _ => Alive(stack, more)
  }

  predicate IsLast(d: nat, stack: seq<nat>) {
    stack != [] && stack[|stack| - 1] == d
  }

  lemma {:induction false} AliveConcat(stack: seq<nat>, a: seq<Event>, b: seq<Event>)
    requires Alive(stack, a).Some?
    ensures Alive(stack, a + b) == Alive(Alive(stack, a).value, b)
    decreases |a|
  {
    if a == [] {
      assert a + b == b;
    } else {
      assert (a + b)[0] == a[0] && (a + b)[1..] == a[1..] + b;
      var next := match a[0]
                  case Constructed(d) => stack + [d]
                  case Destroyed(_) => stack[..|stack| - 1]
                  case _ => stack;
      AliveConcat(next, a[1..], b);
    }
  }

  /** The wrapper branch around events that leave the messages alive as they find them. */
  lemma WrappedBalance(stack: seq<nat>, depth: nat, encrypted: bool, events: seq<Event>)
    requires depth !in stack && Alive(stack + [depth], events) == Some(stack + [depth])
    ensures Alive(stack, [Constructed(depth), UnwrapCalled(depth, encrypted)] + events + [Destroyed(depth)])
         == Some(stack)
  {
    var opening := [Constructed(depth), UnwrapCalled(depth, encrypted)];
    var full := stack + [depth];
    assert opening[1..] == [UnwrapCalled(depth, encrypted)] && opening[1..][1..] == [];
    assert Alive(stack, opening) == Alive(full, opening[1..]) == Some(full);
    AliveConcat(stack, opening, events);
    AliveConcat(stack, opening + events, [Destroyed(depth)]);
    assert [Destroyed(depth)][1..] == [] && full[..|full| - 1] == stack;
  }

  lemma LeafBalance(stack: seq<nat>, m: Msg, depth: nat, remote: Msg -> bool)
    requires !IsWrapper(m.content)
    ensures Alive(stack, Process(m, depth, remote).events) == Some(stack)
  {
    LeafEvents(m, depth, remote);
    NothingBuilt(stack, Process(m, depth, remote).events);
  }

  lemma {:induction false} NothingBuilt(stack: seq<nat>, events: seq<Event>)
    requires forall e <- events :: e.PeerTested? || e.Handled? || e.Rewound?
    ensures Alive(stack, events) == Some(stack)
    decreases |events|
  {
    if events != [] {
      assert events[0] in events;
      NothingBuilt(stack, events[1..]);
    }
  }

  /** The wrappers met, the one that cannot be opened included. */
  function Wrappers(m: Msg): nat {
    Opened(m.content) + (if IsWrapper(Innermost(m).content) then 1 else 0)
  }

  /**
   * Every stack message is destroyed, the last one built first, however deep the nesting and wherever
   * unwrapping fails; one was built for each wrapper met.
   */
  lemma {:induction false} StackMessagesBalanced(m: Msg, depth: nat, remote: Msg -> bool, stack: seq<nat>)
    requires forall d <- stack :: d < depth
    ensures Alive(stack, Process(m, depth, remote).events) == Some(stack)
    ensures |Only(Process(m, depth, remote).events, IsConstructed)| == Wrappers(m)
    decreases m.content
  {
    hide Process;
    hide RouteOf;
    if IsWrapper(m.content) {
      ProcessOfWrapper(m, depth, remote);
      var e := ContentRoute(m.content).encrypted;
      if m.content.unwrapped.Some? {
        var inner := StackMessage(m.content.unwrapped.value, m.content.left.block);
        var events := Process(inner, depth + 1, remote).events;
        StackMessagesBalanced(inner, depth + 1, remote, stack + [depth]);
        WrappedBalance(stack, depth, e, events);
        OnlyWrapped(depth, e, events, IsConstructed);
      } else {
        WrappedBalance(stack, depth, e, []);
        OnlyWrapped(depth, e, [], IsConstructed);
      }
    } else {
      LeafBalance(stack, m, depth, remote);
      LeafPicks(m, depth, remote, IsConstructed);
      ShownPicks(m, remote);
    }
  }

  // ---- The read position after a failure ----

  /**
   * Of a whole nest of messages at most the innermost is ever rewound: exactly when the dispatch fails
   * and it is not for an unwrapping that failed.
   */
  lemma {:induction false} OnlyInnermostIsRewound(m: Msg, depth: nat, remote: Msg -> bool)
    ensures var r, d := Process(m, depth, remote), Innermost(m);
            Only(r.events, IsRewound) ==
              if !r.ok && !IsWrapper(d.content) then [Rewound(depth + Opened(m.content), d.offset / 8)] else []
    decreases m.content
  {
    hide Process;
    hide RouteOf;
    if IsWrapper(m.content) {
      ProcessOfWrapper(m, depth, remote);
      var e := ContentRoute(m.content).encrypted;
      if m.content.unwrapped.Some? {
        var inner := StackMessage(m.content.unwrapped.value, m.content.left.block);
        OnlyInnermostIsRewound(inner, depth + 1, remote);
        OnlyWrapped(depth, e, Process(inner, depth + 1, remote).events, IsRewound);
      } else {
        OnlyWrapped(depth, e, [], IsRewound);
      }
    } else {
      LeafPicks(m, depth, remote, IsRewound);
      ShownPicks(m, remote);
    }
  }

  lemma {:induction false} OnlyHasAll(events: seq<Event>, keep: Event -> bool, e: Event)
    ensures e in Only(events, keep) <==> e in events && keep(e)
  {
    if events != [] {
      OnlyHasAll(events[1..], keep, e);
      assert events == [events[0]] + events[1..];
    }
  }

  /**
   * A message is rewound exactly if its dispatch fails and it is not a wrapper. So after a failure the
   * read position is back at the byte it started in exactly if the message is not a wrapper or its
   * unwrap function left the position there.
   */
  lemma FailureRewindsIff(m: Msg, depth: nat, remote: Msg -> bool)
    ensures var r := Process(m, depth, remote);
            && ((exists at :: Rewound(depth, at) in r.events) <==> !r.ok && !IsWrapper(m.content))
            && (!r.ok ==> (r.left.offset == m.offset / 8 * 8 <==>
                             !IsWrapper(m.content) || m.content.left.offset == m.offset / 8 * 8))
  {
    var r := Process(m, depth, remote);
    OnlyInnermostIsRewound(m, depth, remote);
    forall at ensures Rewound(depth, at) in r.events <==> Rewound(depth, at) in Only(r.events, IsRewound) {
      OnlyHasAll(r.events, IsRewound, Rewound(depth, at));
    }
    if !r.ok && !IsWrapper(m.content) {
      assert Rewound(depth, m.offset / 8) in Only(r.events, IsRewound);
    }
  }

  // ---- The dispatcher ----

  class Message {
    const content: Content
    const block: array<byte>
    var offset: nat

    constructor (m: Msg)
      ensures Valid() && View() == m && fresh(block)
    {
      content, offset := m.content, m.offset;
      var bytes := new byte[STACK_MESSAGE_BYTES](i requires 0 <= i < STACK_MESSAGE_BYTES => m.block[i]);
      block := bytes;
    }

    ghost predicate Valid()
      reads this
    {
      block.Length == STACK_MESSAGE_BYTES
    }

    function View(): Msg
      requires Valid()
      reads this, block
    {
      Msg(content, block[..], offset)
    }

    /** A game function called with the message moves its read position and writes its bytes. */
    method Leave(left: Left)
      requires Valid()
      modifies `offset, block
      ensures View() == Msg(content, left.block, left.offset)
    {
      var i := 0;
      while i < STACK_MESSAGE_BYTES
        invariant 0 <= i <= STACK_MESSAGE_BYTES
        invariant block[..i] == left.block[..i]
      {
        block[i] := left.block[i];
        i := i + 1;
      }
      assert block[..] == left.block[..] == left.block;
      offset := left.offset;
    }
  }

  class Dispatcher {
    const remote: Msg -> bool
    ghost var events: seq<Event>

    constructor (remoteTest: Msg -> bool)
      ensures remote == remoteTest && events == []
    {
      remote, events := remoteTest, [];
    }

    /** Copies the eleven bytes the peer test looks at; every other byte of `dst` stays. */
    method CopyReceivedMetadata(dst: Message, src: Message)
      requires dst.Valid() && src.Valid() && dst.block != src.block
      modifies dst.block
      ensures dst.block[..] == WithMeta(old(dst.block[..]), src.block[..])
    {
      CopyField(dst, src, 0x1C, 4);
      CopyField(dst, src, 0x24, 4);
      CopyField(dst, src, 0x28, 2);
      CopyField(dst, src, 0x2C, 1);
    }

    method CopyField(dst: Message, src: Message, at: nat, width: nat)
      requires dst.Valid() && src.Valid() && dst.block != src.block && at + width <= STACK_MESSAGE_BYTES
      modifies dst.block
      ensures forall i :: 0 <= i < STACK_MESSAGE_BYTES ==>
                dst.block[i] == if at <= i < at + width then src.block[i] else old(dst.block[i])
    {
      var i := 0;
      while i < width
        invariant 0 <= i <= width
        invariant forall k :: 0 <= k < STACK_MESSAGE_BYTES ==>
                    dst.block[k] == if at <= k < at + i then src.block[k] else old(dst.block[k])
      {
        dst.block[at + i] := src.block[at + i];
        i := i + 1;
      }
    }

    /** Run a handler. */
    method CallHandler(msg: Message, rva: nat, named: bool)
      requires msg.Valid() && msg.content.Typed?
      modifies `events, msg`offset, msg.block
      ensures events == old(events) + [Handled(rva, named, old(msg.View()))]
      ensures msg.View() == Msg(msg.content, msg.content.left.block, msg.content.left.offset)
    {
      events := events + [Handled(rva, named, msg.View())];
      msg.Leave(msg.content.left);
    }

    /** The peer guard in front of a handler. */
    method DispatchGuarded(msg: Message, rva: nat, named: bool)
      requires msg.Valid() && msg.content.Typed?
      modifies `events, msg`offset, msg.block
      ensures var t := old(msg.View());
              if remote(t) then events == old(events) + [PeerTested(t)] && msg.View() == t
              else && events == old(events) + [PeerTested(t), Handled(rva, named, t)]
                   && msg.View() == Msg(msg.content, msg.content.left.block, msg.content.left.offset)
    {
      events := events + [PeerTested(msg.View())];
      if !remote(msg.View()) {
        CallHandler(msg, rva, named);
      }
    }

    method ProcessMessage(msg: Message, ghost depth: nat) returns (ok: bool)
      requires msg.Valid()
      modifies `events, msg`offset, msg.block
      ensures var r := Process(old(msg.View()), depth, remote);
              && ok == r.ok && events == old(events) + r.events
              && msg.View() == Msg(msg.content, r.left.block, r.left.offset)
      decreases msg.content, 1
    {
      hide ProcessWrapped;
      var savedDiv8 := msg.offset / 8;
      msg.offset := msg.offset + msg.content.readBits;
      if msg.content.Unreadable? {
        ok := false;
      } else {
        match ContentRoute(msg.content) {
          case Rmi =>
            CallHandler(msg, RVA_RMI, false);
            ok := msg.content.outFlag;
          case UserMessage =>
            CallHandler(msg, RVA_USER_MESSAGE, false);
            ok := false;
          case Guarded(rva, named) =>
            DispatchGuarded(msg, rva, named);
            ok := true;
          case Direct(rva, named) =>
            CallHandler(msg, rva, named);
            ok := true;
          case Unwrap(_) =>
            ok := DispatchWrapped(msg, depth);
            return;
          case Noop =>
            ok := true;
          case Unhandled =>
            ok := false;
        }
      }
      if !ok {
        events := events + [Rewound(depth, savedDiv8)];
        msg.offset := savedDiv8 * 8;
      }
    }

    /** Build a stack message, unwrap into it, give it the outer metadata, dispatch it, destroy it. */
    method DispatchWrapped(msg: Message, ghost depth: nat) returns (ok: bool)
      requires msg.Valid() && IsWrapper(msg.content)
      modifies `events, msg`offset, msg.block
      ensures var r := ProcessWrapped(msg.content, depth, remote);
              && ok == r.ok && events == old(events) + r.events
              && msg.View() == Msg(msg.content, r.left.block, r.left.offset)
      decreases msg.content, 0
    {
      hide Process;
      ghost var before, encrypted := events, ContentRoute(msg.content).encrypted;
      ghost var opening := [Constructed(depth), UnwrapCalled(depth, encrypted)];
      events := events + opening;
      msg.Leave(msg.content.left);
      match msg.content.unwrapped {
        case None =>
          ok := false;
          events := events + [Destroyed(depth)];
          assert events == before + (opening + [] + [Destroyed(depth)]);
        case Some(inner) =>
          var stack := new Message(inner);
          CopyReceivedMetadata(stack, msg);
          ok := ProcessMessage(stack, depth + 1);
          ghost var r := Process(StackMessage(inner, msg.content.left.block), depth + 1, remote);
          events := events + [Destroyed(depth)];
          assert events == before + (opening + r.events + [Destroyed(depth)]);
      }
    }
  }
}
