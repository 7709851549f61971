/**
 * The shard-select flow at the grain of its interlocked operations: pumps may begin again inside the
 * calls a pump makes into the game (the message hook runs there), and teardown runs on its own thread.
 */
module NavSteps {
  import opened Bytes
  import opened NavCommands
  import opened Nav

  /** Where the running pump is: each is the place before one operation, or inside a call into the game. */
  datatype Place =
    | AtRest
    | Drain                            // about to take a command
    | Arm(stores: nat, envIndex: int)  // arming the flow, so many of its five stores done
    | TestPending
    | WinSelect
    | InSelect                         // inside the send of 0x3EB2
    | ReadScene
    | WinNotify
    | InNotify                         // inside the send of 0x3F40
    | Clear(stores: nat)               // clearing the flow, so many of its four stores done
    | ReadLock(scene: int)             // having seen this scene
    | WinRequest(scene: int)
    | InRequest                        // inside the scene request

  /** The shared flags, the running pump, the pumps waiting for it inside their calls, and teardown. */
  datatype Flags = Flags(
    pending: bool,
    index: int,
    didSelect: bool,
    didRequest: bool,
    didNotify: bool,
    at: Place,
    waiting: seq<Place>,
    teardown: nat)                     // 0 when none is running, else one more than the stores it has done

  /** Who moves next, and what the main thread's operation is answered. */
  datatype Move =
    | Begin
    | Proceed(cmd: Option<NavCmd>, envIndex: int, scene: int, locked: bool)
    | TearDown

  predicate InGame(p: Place) {
    p == InSelect || p == InNotify || p == InRequest
  }

  /** The running pump returns to the one that waits for it. */
  function Returned(s: Flags): Flags {
    if s.waiting == [] then s.(at := AtRest)
    else s.(at := s.waiting[|s.waiting| - 1], waiting := s.waiting[..|s.waiting| - 1])
  }

  /** The stores of the arming sequence, in order. */
  function ArmStore(s: Flags, done: nat, envIndex: int): Flags {
    match done
    case 0 => s.(index := envIndex, at := Arm(1, envIndex))
    case 1 => s.(didSelect := false, at := Arm(2, envIndex))
    case 2 => s.(didRequest := false, at := Arm(3, envIndex))
    case 3 => s.(didNotify := false, at := Arm(4, envIndex))
    case _ => s.(pending := true, at := Drain)
  }

  /** The stores of the clearing sequence, in order. */
  function ClearStore(s: Flags, done: nat): Flags {
    match done
    case 0 => s.(pending := false)
    case 1 => s.(didSelect := false)
    case 2 => s.(didRequest := false)
    case _ => s.(didNotify := false)
  }

  /** The main thread's next operation. */
  function Proceeded(s: Flags, m: Move): (Flags, seq<Emit>)
    requires m.Proceed?
  {
    match s.at
    case AtRest => (s, [])
    case Drain =>
      if m.cmd.None? then (s.(at := TestPending), [])
      else if m.cmd.value == PassShardSelect then (s.(at := Arm(0, m.envIndex)), [Activated(m.envIndex)])
      else (s, [])
    case Arm(done, envIndex) => (ArmStore(s, done, envIndex), [])
    case TestPending => (if s.pending then s.(at := WinSelect) else Returned(s), [])
    case WinSelect =>
      if s.didSelect then (s.(at := ReadScene), [])
      else (s.(didSelect := true, at := InSelect), [ShardSelect(s.index)])
    case InSelect => (s.(at := ReadScene), [])
    case ReadScene => (s.(at := if m.scene == SCENE_LOBBY then WinNotify else ReadLock(m.scene)), [])
    case WinNotify =>
      if s.didNotify then (s.(at := Clear(0)), [])
      else (s.(didNotify := true, at := InNotify), [LobbyEnter(SCENE_LOBBY)])
    case InNotify => (s.(at := Clear(0)), [])
    case Clear(done) =>
      var t := ClearStore(s, done);
      (if done < 3 then t.(at := Clear(done + 1)) else Returned(t), [])
    case ReadLock(scene) => (if m.locked then Returned(s) else s.(at := WinRequest(scene)), [])
    case WinRequest(scene) =>
      if s.didRequest then (Returned(s), [])
      else (s.(didRequest := true, at := InRequest), [RequestState(scene, false)])
    case InRequest => (Returned(s), [])
  }

  function Moved(s: Flags, m: Move): (Flags, seq<Emit>) {
    match m
    case Begin =>
      if s.at == AtRest then (s.(at := Drain), [])
      else if InGame(s.at) then (s.(at := Drain, waiting := s.waiting + [s.at]), [])
      else (s, [])
    case Proceed(_, _, _, _) => Proceeded(s, m)
    case TearDown =>
      if s.teardown == 0 then (s.(teardown := 1), [TornDown])
      else (ClearStore(s, s.teardown - 1).(teardown := if s.teardown < 4 then s.teardown + 1 else 0), [])
  }

  function After(s: Flags, ms: seq<Move>): Flags
    decreases |ms|
  {
    if ms == [] then s else After(Moved(s, ms[0]).0, ms[1..])
  }

  function Messages(s: Flags, ms: seq<Move>): seq<Emit>
    decreases |ms|
  {
    if ms == [] then [] else Moved(s, ms[0]).1 + Messages(Moved(s, ms[0]).0, ms[1..])
  }

  /** Waiting pumps are inside calls, and clearing starts with the pending flag, which only arming sets. */
  ghost predicate Sane(s: Flags) {
    && (forall p <- s.waiting :: InGame(p))
    && (s.at == AtRest ==> s.waiting == [])
    && (s.at.Clear? ==> s.at.stores <= 3 && (s.at.stores > 0 ==> !s.pending))
    && s.teardown <= 4
  }

  lemma ReturnedStaysSane(s: Flags)
    requires Sane(s)
    ensures Sane(Returned(s)) && (Returned(s).at == AtRest || InGame(Returned(s).at))
  {
    if s.waiting != [] {
      assert s.waiting[|s.waiting| - 1] in s.waiting;
    }
  }

  // ---- How often each message can be sent at most ----

  /** Pumps waiting inside their send of 0x3EB2. */
  function HeldInSelect(waiting: seq<Place>): nat {
    if waiting == [] then 0
    else (if waiting[|waiting| - 1] == InSelect then 1 else 0) + HeldInSelect(waiting[..|waiting| - 1])
  }

  function One(b: bool): nat {
    if b then 1 else 0
  }

  /** Past the test of the pending flag, and not yet decided by the scene. */
  predicate Selecting(p: Place) {
    p == WinSelect || p == InSelect || p == ReadScene
  }

  /** Sends of 0x3EB2 still possible without another command or teardown. */
  function SelectsLeft(s: Flags): nat {
    One(1 <= s.teardown <= 2) +
    if s.at.Arm? then 1
    else if s.at.Clear? then 0
    else One(!s.didSelect && (s.pending || s.at == WinSelect))
  }

  /** The same for 0x3F40; every pump held in its send of 0x3EB2 may still get there. */
  function EntersLeft(s: Flags): nat {
    HeldInSelect(s.waiting) + One(1 <= s.teardown <= 4) +
    if s.at.Arm? then 1
    else One(!s.didNotify && (s.pending || Selecting(s.at) || s.at == WinNotify))
  }

  function RequestsLeft(s: Flags): nat {
    HeldInSelect(s.waiting) + One(1 <= s.teardown <= 3) +
    if s.at.Arm? then 1
    else One(!s.didRequest && (s.pending || Selecting(s.at) || s.at.ReadLock? || s.at.WinRequest?))
  }

  /** Pumps that begin inside the send of 0x3EB2. */
  function Reentered(s: Flags, ms: seq<Move>): nat
    decreases |ms|
  {
    if ms == [] then 0
    else One(ms[0] == Begin && s.at == InSelect) + Reentered(Moved(s, ms[0]).0, ms[1..])
  }

  lemma HeldAfterPush(waiting: seq<Place>, p: Place)
    ensures HeldInSelect(waiting + [p]) == HeldInSelect(waiting) + One(p == InSelect)
  {
    assert (waiting + [p])[..|waiting|] == waiting;
  }

  lemma CountOfOne(log: seq<Emit>, kind: Kind)
    requires |log| <= 1
    ensures Count(log, kind) == if log == [] then 0 else One(KindOf(log[0]) == kind)
  {
    if log != [] {
      assert log[1..] == [];
    }
  }

  lemma HeldAfterReturn(s: Flags)
    requires Sane(s)
    ensures HeldInSelect(s.waiting) == HeldInSelect(Returned(s).waiting) + One(Returned(s).at == InSelect)
    ensures Sane(Returned(s)) && (Returned(s).at == AtRest || InGame(Returned(s).at))
    ensures Returned(s) == s.(at := Returned(s).at, waiting := Returned(s).waiting)
  {
    ReturnedStaysSane(s);
  }

  /** What a move costs: a command, or a teardown that starts. */
  function Paid(s: Flags, m: Move): nat {
    Count(Moved(s, m).1, Command) + Count(Moved(s, m).1, Stop)
  }

  lemma CountsOfMove(s: Flags, m: Move)
    ensures var out := Moved(s, m).1;
            && |out| <= 1
            && Paid(s, m) == One(out != [] && (out[0].Activated? || out[0].TornDown?))
            && Count(out, Select) == One(out != [] && out[0].ShardSelect?)
            && Count(out, Request) == One(out != [] && out[0].RequestState?)
            && Count(out, Enter) == One(out != [] && out[0].LobbyEnter?)
  {
    hide Returned;
    hide ArmStore;
    hide ClearStore;
    var out := Moved(s, m).1;
    CountOfOne(out, Command);
    CountOfOne(out, Stop);
    CountOfOne(out, Select);
    CountOfOne(out, Request);
    CountOfOne(out, Enter);
  }

  /** The move adds to what is left only for a command, a teardown, or a pump begun inside 0x3EB2's send. */
  ghost predicate Pays(s: Flags, m: Move) {
    var (t, out) := Moved(s, m);
    var more := Paid(s, m) + One(m == Begin && s.at == InSelect);
    && Sane(t)
    && Count(out, Select) + SelectsLeft(t) <= SelectsLeft(s) + Paid(s, m)
    && Count(out, Request) + RequestsLeft(t) <= RequestsLeft(s) + more
    && Count(out, Enter) + EntersLeft(t) <= EntersLeft(s) + more
  }

  lemma BeginningPays(s: Flags, m: Move)
    requires Sane(s) && m == Begin
    ensures Pays(s, m)
  {
    hide Count;
    hide HeldInSelect;
    CountsOfMove(s, m);
    HeldAfterPush(s.waiting, s.at);
  }

  lemma TearingPays(s: Flags, m: Move)
    requires Sane(s) && m == TearDown
    ensures Pays(s, m)
  {
    hide Proceeded;
    hide ClearStore;
    hide Count;
    hide HeldInSelect;
    CountsOfMove(s, m);
    if s.teardown > 0 {
      ClearsOne(s, s.teardown - 1);
    }
  }

  /** Each store clears its flag and nothing else. */
  lemma ClearsOne(s: Flags, done: nat)
    ensures ClearStore(s, done) == s.(pending := s.pending && done != 0, didSelect := s.didSelect && done != 1,
                                 didRequest := s.didRequest && done != 2, didNotify := s.didNotify && done <= 2)
  {
  }

  lemma ArmingPays(s: Flags, m: Move)
    requires Sane(s) && m.Proceed? && s.at.Arm?
    ensures Pays(s, m)
  {
    hide Count;
    hide HeldInSelect;
    CountsOfMove(s, m);
  }

  lemma DrainingPays(s: Flags, m: Move)
    requires Sane(s) && m.Proceed? && (s.at == Drain || s.at == AtRest)
    ensures Pays(s, m)
  {
    hide ArmStore;
    hide Count;
    hide HeldInSelect;
    CountsOfMove(s, m);
  }

  lemma SelectingPays(s: Flags, m: Move)
    requires Sane(s) && m.Proceed? && (s.at == WinSelect || s.at == InSelect || s.at == ReadScene)
    ensures Pays(s, m)
  {
    hide Count;
    hide HeldInSelect;
    CountsOfMove(s, m);
  }

  lemma NotifyingPays(s: Flags, m: Move)
    requires Sane(s) && m.Proceed? && (s.at == WinNotify || s.at == InNotify)
    ensures Pays(s, m)
  {
    hide Count;
    hide HeldInSelect;
    CountsOfMove(s, m);
  }

  lemma ClearingPays(s: Flags, m: Move)
    requires Sane(s) && m.Proceed? && s.at.Clear? && s.at.stores < 3
    ensures Pays(s, m)
  {
    hide ClearStore;
    hide Count;
    hide HeldInSelect;
    CountsOfMove(s, m);
    ClearsOne(s, s.at.stores);
  }

  lemma ClearedPays(s: Flags, m: Move)
    requires Sane(s) && m.Proceed? && s.at == Clear(3)
    ensures Pays(s, m)
  {
    hide ClearStore;
    hide Returned;
    hide Count;
    hide HeldInSelect;
    CountsOfMove(s, m);
    ClearsOne(s, 3);
    HeldAfterReturn(s.(didNotify := false));
  }

  lemma LeavingPays(s: Flags, m: Move)
    requires Sane(s) && m.Proceed? && (s.at == TestPending || s.at.ReadLock? || s.at == InRequest)
    ensures Pays(s, m)
  {
    hide Returned;
    hide Count;
    hide HeldInSelect;
    CountsOfMove(s, m);
    HeldAfterReturn(s);
  }

  lemma RequestingPays(s: Flags, m: Move)
    requires Sane(s) && m.Proceed? && s.at.WinRequest?
    ensures Pays(s, m)
  {
    hide Returned;
    hide Count;
    hide HeldInSelect;
    CountsOfMove(s, m);
    HeldAfterReturn(s);
  }

  lemma MovePays(s: Flags, m: Move)
    requires Sane(s)
    ensures Pays(s, m)
  {
    hide Pays;
    if m == Begin {
      BeginningPays(s, m);
    } else if m == TearDown {
      TearingPays(s, m);
    } else if s.at.Arm? {
      ArmingPays(s, m);
    } else if s.at == Drain || s.at == AtRest {
      DrainingPays(s, m);
    } else if s.at == WinSelect || s.at == InSelect || s.at == ReadScene {
      SelectingPays(s, m);
    } else if s.at == WinNotify || s.at == InNotify {
      NotifyingPays(s, m);
    } else if s.at == Clear(3) {
      ClearedPays(s, m);
    } else if s.at.Clear? {
      ClearingPays(s, m);
    } else if s.at.WinRequest? {
      RequestingPays(s, m);
    } else {
      LeavingPays(s, m);
    }
  }

  /**
   * Under every interleaving, with pumps begun inside calls and teardowns at any point: sends of 0x3EB2
   * never exceed drained commands plus teardowns; the later two messages may each be sent once more for
   * every pump begun inside a send of 0x3EB2.
   */
  lemma {:induction false} SendsBounded(s: Flags, ms: seq<Move>)
    requires Sane(s)
    ensures var log := Messages(s, ms);
            var paid := Count(log, Command) + Count(log, Stop);
            && Sane(After(s, ms))
            && Count(log, Select) + SelectsLeft(After(s, ms)) <= SelectsLeft(s) + paid
            && Count(log, Request) + RequestsLeft(After(s, ms)) <= RequestsLeft(s) + paid + Reentered(s, ms)
            && Count(log, Enter) + EntersLeft(After(s, ms)) <= EntersLeft(s) + paid + Reentered(s, ms)
    decreases |ms|
  {
    hide Moved;
    if ms != [] {
      var (t, out) := Moved(s, ms[0]);
      MovePays(s, ms[0]);
      SendsBounded(t, ms[1..]);
      var more := Messages(t, ms[1..]);
      CountConcat(out, more, Command);
      CountConcat(out, more, Stop);
      CountConcat(out, more, Select);
      CountConcat(out, more, Request);
      CountConcat(out, more, Enter);
    }
  }

  /** Nothing armed, no pump running, no teardown under way. */
  function Start(): Flags {
    Flags(false, 0, false, false, false, AtRest, [], 0)
  }

  /** So from the start, whatever happens, with nothing left over. */
  lemma SendsFromStart(ms: seq<Move>)
    ensures var log := Messages(Start(), ms);
            var paid := Count(log, Command) + Count(log, Stop);
            && Count(log, Select) <= paid
            && Count(log, Request) <= paid + Reentered(Start(), ms)
            && Count(log, Enter) <= paid + Reentered(Start(), ms)
  {
    SendsBounded(Start(), ms);
  }

  // ---- Left alone, a pump does what it does at once ----

  const ENTER := LobbyEnter(SCENE_LOBBY)

  /** The main thread makes `n` moves, always answered the same. */
  function Go(s: Flags, n: nat, m: Move): Flags
    decreases n
  {
    if n == 0 then s else Go(Moved(s, m).0, n - 1, m)
  }

  function Tell(s: Flags, n: nat, m: Move): seq<Emit>
    decreases n
  {
    if n == 0 then [] else Moved(s, m).1 + Tell(Moved(s, m).0, n - 1, m)
  }

  /** The main thread makes `n` moves with the same answers, from `s` to `t`, sending `out`. */
  ghost predicate Goes(s: Flags, n: nat, m: Move, t: Flags, out: seq<Emit>) {
    m.Proceed? && Go(s, n, m) == t && Tell(s, n, m) == out
  }

  /** One move of anyone. */
  ghost predicate Does(s: Flags, m: Move, t: Flags, out: seq<Emit>) {
    Moved(s, m) == (t, out)
  }

  lemma GoesNowhere(s: Flags, m: Move)
    requires m.Proceed?
    ensures Goes(s, 0, m, s, [])
  {
  }

  /** One silent operation, then the rest. */
  lemma Quietly(s: Flags, m: Move, t: Flags, b: nat, u: Flags, out: seq<Emit>)
    requires m.Proceed? && Does(s, m, t, []) && Goes(t, b, m, u, out)
    ensures Goes(s, 1 + b, m, u, out)
  {
    hide Moved;
    assert [] + out == out;
  }

  /** One operation that sends, then the rest. */
  lemma Saying(s: Flags, m: Move, t: Flags, e: Emit, b: nat, u: Flags, out: seq<Emit>)
    requires m.Proceed? && Does(s, m, t, [e]) && Goes(t, b, m, u, out)
    ensures Goes(s, 1 + b, m, u, [e] + out)
  {
    hide Moved;
  }

  /** The flags of the flow that is pumped at once. */
  function FlagsOf(n: Flow, at: Place): Flags {
    Flags(n.pending, n.index, n.didSelect, n.didRequest, n.didNotify, at, [], 0)
  }

  lemma ClearsAtOnce(n: Flow, m: Move)
    requires m.Proceed?
    ensures Goes(FlagsOf(n, Clear(0)), 4, m, FlagsOf(Cleared(n), AtRest), [])
  {
    hide Does;
    hide Goes;
    var end := FlagsOf(Cleared(n), AtRest);
    var a := n.(pending := false);
    var b := a.(didSelect := false);
    var c := b.(didRequest := false);
    ClearMoves(n, a, b, c, m);
    GoesNowhere(end, m);
    Quietly(FlagsOf(c, Clear(3)), m, end, 0, end, []);
    Quietly(FlagsOf(b, Clear(2)), m, FlagsOf(c, Clear(3)), 1, end, []);
    Quietly(FlagsOf(a, Clear(1)), m, FlagsOf(b, Clear(2)), 2, end, []);
    Quietly(FlagsOf(n, Clear(0)), m, FlagsOf(a, Clear(1)), 3, end, []);
  }

  lemma ClearMoves(n: Flow, a: Flow, b: Flow, c: Flow, m: Move)
    requires m.Proceed?
    requires a == n.(pending := false) && b == a.(didSelect := false) && c == b.(didRequest := false)
    ensures Does(FlagsOf(n, Clear(0)), m, FlagsOf(a, Clear(1)), [])
    ensures Does(FlagsOf(a, Clear(1)), m, FlagsOf(b, Clear(2)), [])
    ensures Does(FlagsOf(b, Clear(2)), m, FlagsOf(c, Clear(3)), [])
    ensures Does(FlagsOf(c, Clear(3)), m, FlagsOf(Cleared(n), AtRest), [])
  {
  }

  lemma LobbyMoves(n: Flow, m: Move)
    requires m.Proceed? && m.scene == SCENE_LOBBY
    ensures Does(FlagsOf(n, ReadScene), m, FlagsOf(n, WinNotify), [])
    ensures n.didNotify ==> Does(FlagsOf(n, WinNotify), m, FlagsOf(n, Clear(0)), [])
    ensures var told := n.(didNotify := true);
            && (!n.didNotify ==> Does(FlagsOf(n, WinNotify), m, FlagsOf(told, InNotify), [ENTER]))
            && Does(FlagsOf(told, InNotify), m, FlagsOf(told, Clear(0)), [])
  {
  }

  lemma LobbyAtOnce(n: Flow, m: Move) returns (k: nat)
    requires m.Proceed? && m.scene == SCENE_LOBBY
    ensures var (after, out) := Advanced(n, m.scene, m.locked);
            Goes(FlagsOf(n, ReadScene), k, m, FlagsOf(after, AtRest), out)
  {
    hide Does;
    hide Goes;
    var told := n.(didNotify := true);
    var end := FlagsOf(Cleared(n), AtRest);
    LobbyMoves(n, m);
    if n.didNotify {
      ClearsAtOnce(n, m);
      Quietly(FlagsOf(n, WinNotify), m, FlagsOf(n, Clear(0)), 4, end, []);
      Quietly(FlagsOf(n, ReadScene), m, FlagsOf(n, WinNotify), 5, end, []);
      k := 6;
    } else {
      ClearsAtOnce(told, m);
      Quietly(FlagsOf(told, InNotify), m, FlagsOf(told, Clear(0)), 4, end, []);
      Saying(FlagsOf(n, WinNotify), m, FlagsOf(told, InNotify), ENTER, 5, end, []);
      Quietly(FlagsOf(n, ReadScene), m, FlagsOf(n, WinNotify), 6, end, [ENTER] + []);
      assert [ENTER] + [] == [ENTER];
      k := 7;
    }
  }

  lemma AwayMoves(n: Flow, m: Move)
    requires m.Proceed? && m.scene != SCENE_LOBBY
    ensures Does(FlagsOf(n, ReadScene), m, FlagsOf(n, ReadLock(m.scene)), [])
    ensures Does(FlagsOf(n, ReadLock(m.scene)), m, FlagsOf(n, if m.locked then AtRest else WinRequest(m.scene)), [])
    ensures n.didRequest ==> Does(FlagsOf(n, WinRequest(m.scene)), m, FlagsOf(n, AtRest), [])
    ensures var asked := n.(didRequest := true);
            && (!n.didRequest ==>
                  Does(FlagsOf(n, WinRequest(m.scene)), m, FlagsOf(asked, InRequest), [RequestState(m.scene, false)]))
            && Does(FlagsOf(asked, InRequest), m, FlagsOf(asked, AtRest), [])
  {
  }

  lemma AwayAtOnce(n: Flow, m: Move) returns (k: nat)
    requires m.Proceed? && m.scene != SCENE_LOBBY
    ensures var (after, out) := Advanced(n, m.scene, m.locked);
            Goes(FlagsOf(n, ReadScene), k, m, FlagsOf(after, AtRest), out)
  {
    hide Does;
    hide Goes;
    var end, asked := FlagsOf(n, AtRest), n.(didRequest := true);
    AwayMoves(n, m);
    GoesNowhere(end, m);
    GoesNowhere(FlagsOf(asked, AtRest), m);
    var lock, win := FlagsOf(n, ReadLock(m.scene)), FlagsOf(n, WinRequest(m.scene));
    if m.locked {
      Quietly(lock, m, end, 0, end, []);
      Quietly(FlagsOf(n, ReadScene), m, lock, 1, end, []);
      k := 2;
    } else if n.didRequest {
      Quietly(win, m, end, 0, end, []);
      Quietly(lock, m, win, 1, end, []);
      Quietly(FlagsOf(n, ReadScene), m, lock, 2, end, []);
      assert asked == n;
      k := 3;
    } else {
      var out := [RequestState(m.scene, false)];
      end := FlagsOf(asked, AtRest);
      Quietly(FlagsOf(asked, InRequest), m, end, 0, end, []);
      Saying(win, m, FlagsOf(asked, InRequest), out[0], 1, end, []);
      assert [out[0]] + [] == out;
      Quietly(lock, m, win, 2, end, out);
      Quietly(FlagsOf(n, ReadScene), m, lock, 3, end, out);
      k := 4;
    }
  }

  /** The same for a drained command: its five stores arm the flow. */
  lemma ArmsAtOnce(n: Flow, envIndex: int, m: Move)
    requires m.Proceed? && m.cmd == Some(PassShardSelect) && m.envIndex == envIndex
    requires n.phase == Draining && n.queue != [] && n.queue[0] == PassShardSelect
    ensures Does(FlagsOf(n, Drain), m, FlagsOf(n, Arm(0, envIndex)), Drained(n, envIndex).1)
    ensures Goes(FlagsOf(n, Arm(0, envIndex)), 5, m, FlagsOf(Drained(n, envIndex).0, Drain), [])
  {
    hide Goes;
    var end := FlagsOf(Drained(n, envIndex).0, Drain);
    var a := FlagsOf(n.(index := envIndex), Arm(1, envIndex));
    var b := a.(didSelect := false, at := Arm(2, envIndex));
    var c := b.(didRequest := false, at := Arm(3, envIndex));
    var d := c.(didNotify := false, at := Arm(4, envIndex));
    GoesNowhere(end, m);
    Quietly(d, m, end, 0, end, []);
    Quietly(c, m, d, 1, end, []);
    Quietly(b, m, c, 2, end, []);
    Quietly(a, m, b, 3, end, []);
    Quietly(FlagsOf(n, Arm(0, envIndex)), m, a, 4, end, []);
  }

  lemma SelectMoves(n: Flow, m: Move)
    requires m.Proceed?
    ensures Does(FlagsOf(n, TestPending), m, FlagsOf(n, if n.pending then WinSelect else AtRest), [])
    ensures n.didSelect ==> Does(FlagsOf(n, WinSelect), m, FlagsOf(n, ReadScene), [])
    ensures var sent := n.(didSelect := true);
            && (!n.didSelect ==> Does(FlagsOf(n, WinSelect), m, FlagsOf(sent, InSelect), [ShardSelect(n.index)]))
            && Does(FlagsOf(sent, InSelect), m, FlagsOf(sent, ReadScene), [])
  {
  }

  /** Undisturbed, the single operations of a pump add up to one pass of the flow. */
  lemma PumpsAtOnce(n: Flow, m: Move) returns (k: nat)
    requires m.Proceed?
    ensures var (after, out) := Pumped(n, m.scene, m.locked);
            Goes(FlagsOf(n, TestPending), k, m, FlagsOf(after, AtRest), out)
  {
    hide Does;
    hide Goes;
    hide Advanced;
    var sent := n.(didSelect := true);
    SelectMoves(n, m);
    if !n.pending {
      GoesNowhere(FlagsOf(n, AtRest), m);
      Quietly(FlagsOf(n, TestPending), m, FlagsOf(n, AtRest), 0, FlagsOf(n, AtRest), []);
      k := 1;
      return;
    }
    if m.scene == SCENE_LOBBY {
      k := LobbyAtOnce(sent, m);
    } else {
      k := AwayAtOnce(sent, m);
    }
    var (after, out) := Advanced(sent, m.scene, m.locked);
    var end := FlagsOf(after, AtRest);
    if n.didSelect {
      assert sent == n && [] + out == out;
      Quietly(FlagsOf(n, WinSelect), m, FlagsOf(n, ReadScene), k, end, out);
      Quietly(FlagsOf(n, TestPending), m, FlagsOf(n, WinSelect), k + 1, end, out);
      k := k + 2;
    } else {
      Quietly(FlagsOf(sent, InSelect), m, FlagsOf(sent, ReadScene), k, end, out);
      Saying(FlagsOf(n, WinSelect), m, FlagsOf(sent, InSelect), ShardSelect(n.index), k + 1, end, out);
      Quietly(FlagsOf(n, TestPending), m, FlagsOf(n, WinSelect), k + 2, end, [ShardSelect(n.index)] + out);
      k := k + 3;
    }
  }

  // ---- When the messages follow the protocol ----

  /** Where pumps may begin inside calls, and whether a teardown may run beside a pump. */
  datatype Policy = Policy(inSelect: bool, inNotify: bool, inRequest: bool, teardown: bool)

  predicate Allowed(p: Policy, s: Flags, m: Move) {
    match m
    case Begin =>
      && (s.at == InSelect ==> p.inSelect) && (s.at == InNotify ==> p.inNotify) && (s.at == InRequest ==> p.inRequest)
      && (s.teardown > 0 ==> p.teardown)
    case TearDown => s.at != AtRest ==> p.teardown
    case Proceed(_, _, _, _) => true
  }

  predicate Obeys(p: Policy, s: Flags, ms: seq<Move>)
    decreases |ms|
  {
    ms == [] || (Allowed(p, s, ms[0]) && Obeys(p, Moved(s, ms[0]).0, ms[1..]))
  }

  /** The flags in order, and the stage they stand for. */
  ghost predicate InStep(s: Flags, stage: Stage) {
    && !s.didNotify
    && (s.didRequest ==> s.didSelect)
    && (s.didSelect ==> s.pending)
    && stage == (if !s.pending then Quiet
                 else if !s.didSelect then Stage.Armed(s.index)
                 else if !s.didRequest then Selected
                 else Requested)
  }

  /** The stage of the conversation wherever the running pump is; pumps wait in scene requests only. */
  ghost predicate AtStage(s: Flags, stage: Stage) {
    && (s.at == AtRest ==> s.waiting == []) && (forall p <- s.waiting :: p == InRequest)
    && if s.teardown > 0 then TearingAtRest(s) && stage == Quiet else PumpAtStage(s, stage)
  }

  /** A teardown between pumps, the flags it has not come to yet as they were. */
  ghost predicate TearingAtRest(s: Flags) {
    && s.at == AtRest && s.teardown <= 4
    && (s.teardown >= 2 ==> !s.pending) && (s.teardown >= 3 ==> !s.didSelect) && (s.teardown >= 4 ==> !s.didRequest)
  }

  ghost predicate PumpAtStage(s: Flags, stage: Stage) {
    match s.at
    case Arm(done, envIndex) =>
      && stage == Stage.Armed(if done == 0 then envIndex else s.index)
      && (done >= 2 ==> !s.didSelect) && (done >= 3 ==> !s.didRequest) && (done >= 4 ==> !s.didNotify)
    case Clear(done) =>
      && stage == Quiet
      && (done >= 1 ==> !s.pending) && (done >= 2 ==> !s.didSelect) && (done >= 3 ==> !s.didRequest)
    case InNotify => stage == Quiet
    case WinSelect => InStep(s, stage) && s.pending
    case InSelect => InStep(s, stage) && s.didSelect
    case ReadScene => InStep(s, stage) && s.didSelect
    case WinNotify => InStep(s, stage) && s.didSelect
    case ReadLock(scene) => InStep(s, stage) && s.didSelect && scene != SCENE_LOBBY
    case WinRequest(scene) => InStep(s, stage) && s.didSelect && scene != SCENE_LOBBY
    case _ => InStep(s, stage)
  }

  lemma ReturnKeepsStage(s: Flags, stage: Stage)
    requires s.teardown == 0 && (forall p <- s.waiting :: p == InRequest) && InStep(s, stage)
    ensures AtStage(Returned(s), stage)
  {
    if s.waiting != [] {
      var n := |s.waiting| - 1;
      assert s.waiting[n] in s.waiting && Returned(s).waiting == s.waiting[..n];
      forall p | p in s.waiting[..n] ensures p == InRequest {
        assert p in s.waiting;
      }
    }
  }

  lemma FollowOne(stage: Stage, out: seq<Emit>)
    requires |out| <= 1
    ensures FollowAll(stage, out) == if out == [] then Some(stage) else Follow(stage, out[0])
  {
    if out != [] {
      assert out[1..] == [];
      match Follow(stage, out[0])
      case None =>
      case Some(next) => assert FollowAll(next, []) == Some(next);
    }
  }

  /** While the flags are being armed or cleared nothing is sent. */
  lemma StoreFollows(s: Flags, m: Move, stage: Stage)
    requires s.teardown == 0 && m.Proceed? && (s.at.Arm? || s.at.Clear?) && AtStage(s, stage)
    ensures AtStage(Moved(s, m).0, stage) && Moved(s, m).1 == []
  {
    hide Returned;
    hide ClearStore;
    if s.at.Clear? {
      ClearsOne(s, s.at.stores);
      if s.at.stores >= 3 {
        ReturnKeepsStage(ClearStore(s, s.at.stores), stage);
      }
    }
  }

  lemma PumpFollows(s: Flags, m: Move, stage: Stage) returns (next: Stage)
    requires s.teardown == 0 && m.Proceed? && !s.at.Arm? && !s.at.Clear? && AtStage(s, stage)
    ensures AtStage(Moved(s, m).0, next)
    ensures FollowAll(stage, Moved(s, m).1) == Some(next)
  {
    hide Returned;
    hide FollowAll;
    var out := Moved(s, m).1;
    FollowOne(stage, out);
    next := if out == [] then stage else Follow(stage, out[0]).value;
    if InStep(s, stage) {
      ReturnKeepsStage(s, stage);
    }
  }

  lemma TearFollows(s: Flags, stage: Stage)
    requires s.at == AtRest && AtStage(s, stage)
    ensures AtStage(Moved(s, TearDown).0, Quiet)
    ensures FollowAll(stage, Moved(s, TearDown).1) == Some(Quiet)
  {
    hide ClearStore;
    FollowOne(stage, Moved(s, TearDown).1);
    if s.teardown > 0 {
      ClearsOne(s, s.teardown - 1);
    }
  }

  lemma RestFollows(s: Flags, m: Move, stage: Stage)
    requires (m.Proceed? && s.teardown > 0) || (m == Begin && s.teardown == 0 && s.at != InSelect && s.at != InNotify)
    requires AtStage(s, stage)
    ensures AtStage(Moved(s, m).0, stage) && FollowAll(stage, Moved(s, m).1) == Some(stage)
  {
  }

  lemma MoveFollows(p: Policy, s: Flags, m: Move, stage: Stage) returns (next: Stage)
    requires !p.inSelect && !p.inNotify && !p.teardown && Allowed(p, s, m) && AtStage(s, stage)
    ensures AtStage(Moved(s, m).0, next)
    ensures FollowAll(stage, Moved(s, m).1) == Some(next)
  {
    next := stage;
    if m == TearDown {
      next := Quiet;
      TearFollows(s, stage);
    } else if s.teardown > 0 || m == Begin {
      RestFollows(s, m, stage);
    } else if s.at.Arm? || s.at.Clear? {
      StoreFollows(s, m, stage);
    } else {
      next := PumpFollows(s, m, stage);
    }
  }

  lemma {:induction false} PolicyFollows(p: Policy, s: Flags, ms: seq<Move>, stage: Stage) returns (last: Stage)
    requires !p.inSelect && !p.inNotify && !p.teardown && Obeys(p, s, ms) && AtStage(s, stage)
    ensures AtStage(After(s, ms), last)
    ensures FollowAll(stage, Messages(s, ms)) == Some(last)
    decreases |ms|
  {
    hide Moved;
    hide AtStage;
    last := stage;
    if ms != [] {
      var next := MoveFollows(p, s, ms[0], stage);
      last := PolicyFollows(p, Moved(s, ms[0]).0, ms[1..], next);
      FollowConcat(stage, Moved(s, ms[0]).1, Messages(Moved(s, ms[0]).0, ms[1..]));
    }
  }

  // ---- Runs in which they do not ----

  function Times(n: nat, m: Move): seq<Move> {
    if n == 0 then [] else [m] + Times(n - 1, m)
  }

  /** From `s` the moves lead to `t`, send `log`, and keep to the policy. */
  ghost predicate Leads(p: Policy, s: Flags, ms: seq<Move>, t: Flags, log: seq<Emit>) {
    After(s, ms) == t && Messages(s, ms) == log && Obeys(p, s, ms)
  }

  lemma LeadsOne(p: Policy, s: Flags, m: Move)
    requires Allowed(p, s, m)
    ensures Leads(p, s, [m], Moved(s, m).0, Moved(s, m).1)
  {
    assert [m][1..] == [];
    assert Messages(s, [m]) == Moved(s, m).1 + [];
  }

  lemma {:induction false} LeadsOn(p: Policy, s: Flags, ms: seq<Move>, t: Flags, log: seq<Emit>,
                                   ns: seq<Move>, u: Flags, more: seq<Emit>)
    requires Leads(p, s, ms, t, log) && Leads(p, t, ns, u, more)
    ensures Leads(p, s, ms + ns, u, log + more)
    decreases |ms|
  {
    hide Moved;
    if ms == [] {
      assert ms + ns == ns && log + more == more;
    } else {
      var next, out := Moved(s, ms[0]).0, Moved(s, ms[0]).1;
      var rest := Messages(next, ms[1..]);
      LeadsOn(p, next, ms[1..], t, rest, ns, u, more);
      assert (ms + ns)[0] == ms[0] && (ms + ns)[1..] == ms[1..] + ns;
      assert (out + rest) + more == out + (rest + more);
    }
  }

  lemma {:induction false} LeadsTimes(p: Policy, s: Flags, n: nat, m: Move)
    requires m.Proceed?
    ensures Leads(p, s, Times(n, m), Go(s, n, m), Tell(s, n, m))
    decreases n
  {
    hide Moved;
    if n > 0 {
      LeadsTimes(p, Moved(s, m).0, n - 1, m);
      assert Times(n, m)[1..] == Times(n - 1, m);
    }
  }

  /** A run from the start, continued. */
  lemma Then(p: Policy, ms: seq<Move>, s: Flags, log: seq<Emit>, m: Move, t: Flags, out: seq<Emit>)
    returns (longer: seq<Move>)
    requires Leads(p, Start(), ms, s, log) && Allowed(p, s, m) && Does(s, m, t, out)
    ensures Leads(p, Start(), longer, t, log + out)
  {
    LeadsOne(p, s, m);
    LeadsOn(p, Start(), ms, s, log, [m], t, out);
    longer := ms + [m];
  }

  lemma ThenTimes(p: Policy, ms: seq<Move>, s: Flags, log: seq<Emit>, n: nat, m: Move, t: Flags, out: seq<Emit>)
    returns (longer: seq<Move>)
    requires Leads(p, Start(), ms, s, log) && Goes(s, n, m, t, out)
    ensures Leads(p, Start(), longer, t, log + out)
  {
    LeadsTimes(p, s, n, m);
    LeadsOn(p, Start(), ms, s, log, Times(n, m), t, out);
    longer := ms + Times(n, m);
  }

  // What the pump finds: a command; nothing, in the lobby; nothing elsewhere, unlocked or locked.
  const TAKE := Proceed(Some(PassShardSelect), 0, SCENE_LOBBY, false)
  const LOBBY := Proceed(None, 0, SCENE_LOBBY, false)
  const AWAY := Proceed(None, 0, 0, false)
  const LOCKED := Proceed(None, 0, 0, true)

  // Where the flags are in these runs.
  const BEGUN := Flags(false, 0, false, false, false, Drain, [], 0)
  const TAKEN := Flags(false, 0, false, false, false, Arm(0, 0), [], 0)
  const SELECTING := Flags(true, 0, true, false, false, InSelect, [], 0)
  const INNER := Flags(true, 0, true, false, false, Drain, [InSelect], 0)
  const INNER_ENTERS := Flags(true, 0, true, false, true, InNotify, [InSelect], 0)
  const INNER_ENDS := Flags(false, 0, false, false, true, Clear(3), [InSelect], 0)
  const OUTER := Flags(false, 0, false, false, false, InSelect, [], 0)
  const OUTER_ENTERS := Flags(false, 0, false, false, true, InNotify, [], 0)
  const NOTIFYING := Flags(true, 0, true, false, true, InNotify, [], 0)
  const NESTED := Flags(true, 0, true, false, true, Drain, [InNotify], 0)
  const NESTED_ASKS := Flags(true, 0, true, true, true, InRequest, [InNotify], 0)
  const RESTING := Flags(true, 0, true, false, false, AtRest, [], 0)
  const AGAIN := Flags(true, 0, true, false, false, Drain, [], 0)
  const TESTED := Flags(true, 0, true, false, false, WinSelect, [], 0)

  lemma ToSelect()
    ensures Does(Start(), Begin, BEGUN, []) && Does(BEGUN, TAKE, TAKEN, [Activated(0)])
    ensures Goes(TAKEN, 8, LOBBY, SELECTING, [ShardSelect(0)])
  {
  }

  lemma ToSecondEnter()
    ensures Does(SELECTING, Begin, INNER, []) && Does(INNER_ENDS, LOBBY, OUTER, [])
    ensures Goes(OUTER, 3, LOBBY, OUTER_ENTERS, [ENTER])
  {
    assert [] + [InSelect] == [InSelect] && [InSelect][..0] == [];
  }

  lemma ToFirstEnter()
    ensures Goes(INNER, 5, LOBBY, INNER_ENTERS, [ENTER])
  {
  }

  lemma ToFirstEnd()
    ensures Goes(INNER_ENTERS, 4, LOBBY, INNER_ENDS, [])
  {
  }

  lemma ToNested()
    ensures Goes(SELECTING, 3, LOBBY, NOTIFYING, [ENTER]) && Does(NOTIFYING, Begin, NESTED, [])
  {
    assert [] + [InNotify] == [InNotify];
  }

  lemma ToLateRequest()
    ensures Goes(NESTED, 6, AWAY, NESTED_ASKS, [RequestState(0, false)])
  {
  }

  lemma ToSecondSelect()
    ensures Goes(SELECTING, 3, LOCKED, RESTING, []) && Does(RESTING, Begin, AGAIN, [])
    ensures Goes(AGAIN, 2, LOCKED, TESTED, [])
    ensures Does(TESTED, TearDown, TESTED.(teardown := 1), [TornDown])
    ensures Does(TESTED.(teardown := 1), TearDown, TESTED.(teardown := 2, pending := false), [])
    ensures Does(TESTED.(teardown := 2, pending := false), TearDown,
                 TESTED.(teardown := 3, pending := false, didSelect := false), [])
    ensures Does(TESTED.(teardown := 3, pending := false, didSelect := false), LOCKED,
                 OUTER.(teardown := 3, didSelect := true), [ShardSelect(0)])
  {
  }

  /** One command is drained and its 0x3EB2 is being sent. */
  lemma ReachSelect(p: Policy) returns (ms: seq<Move>)
    ensures Leads(p, Start(), ms, SELECTING, [Activated(0), ShardSelect(0)])
  {
    hide Does;
    hide Goes;
    ToSelect();
    assert Leads(p, Start(), [], Start(), []);
    ms := Then(p, [], Start(), [], Begin, BEGUN, []);
    ms := Then(p, ms, BEGUN, [] + [], TAKE, TAKEN, [Activated(0)]);
    ms := ThenTimes(p, ms, TAKEN, [] + [] + [Activated(0)], 8, LOBBY, SELECTING, [ShardSelect(0)]);
    assert [] + [] + [Activated(0)] + [ShardSelect(0)] == [Activated(0), ShardSelect(0)];
  }

  /** A pump begun inside the send of 0x3EB2: one command, two 0x3F40. */
  lemma TwoEnters(p: Policy) returns (ms: seq<Move>)
    requires p.inSelect
    ensures Obeys(p, Start(), ms) && Messages(Start(), ms) == [Activated(0), ShardSelect(0), ENTER, ENTER]
  {
    hide Does;
    hide Goes;
    ToFirstEnter();
    ToFirstEnd();
    ToSecondEnter();
    var log := [Activated(0), ShardSelect(0)];
    ms := ReachSelect(p);
    ms := Then(p, ms, SELECTING, log, Begin, INNER, []);
    ms := ThenTimes(p, ms, INNER, log + [], 5, LOBBY, INNER_ENTERS, [ENTER]);
    ms := ThenTimes(p, ms, INNER_ENTERS, log + [] + [ENTER], 4, LOBBY, INNER_ENDS, []);
    ms := Then(p, ms, INNER_ENDS, log + [] + [ENTER] + [], LOBBY, OUTER, []);
    ms := ThenTimes(p, ms, OUTER, log + [] + [ENTER] + [] + [], 3, LOBBY, OUTER_ENTERS, [ENTER]);
    assert log + [] + [ENTER] + [] + [] + [ENTER] == [Activated(0), ShardSelect(0), ENTER, ENTER];
  }

  /** One begun inside the send of 0x3F40, the scene having changed again: a scene request after the end. */
  lemma LateRequest(p: Policy) returns (ms: seq<Move>)
    requires p.inNotify
    ensures Obeys(p, Start(), ms)
    ensures Messages(Start(), ms) == [Activated(0), ShardSelect(0), ENTER, RequestState(0, false)]
  {
    hide Does;
    hide Goes;
    ToNested();
    ToLateRequest();
    var log := [Activated(0), ShardSelect(0)];
    ms := ReachSelect(p);
    ms := ThenTimes(p, ms, SELECTING, log, 3, LOBBY, NOTIFYING, [ENTER]);
    ms := Then(p, ms, NOTIFYING, log + [ENTER], Begin, NESTED, []);
    ms := ThenTimes(p, ms, NESTED, log + [ENTER] + [], 6, AWAY, NESTED_ASKS, [RequestState(0, false)]);
    assert log + [ENTER] + [] + [RequestState(0, false)]
        == [Activated(0), ShardSelect(0), ENTER, RequestState(0, false)];
  }

  /** A teardown between a pump's test of the pending flag and its next operation: 0x3EB2 twice. */
  lemma TwoSelects(p: Policy) returns (ms: seq<Move>)
    requires p.teardown
    ensures Obeys(p, Start(), ms)
    ensures Messages(Start(), ms) == [Activated(0), ShardSelect(0), TornDown, ShardSelect(0)]
  {
    hide Does;
    hide Goes;
    ToSecondSelect();
    var log := [Activated(0), ShardSelect(0)];
    ms := ReachSelect(p);
    ms := ThenTimes(p, ms, SELECTING, log, 3, LOCKED, RESTING, []);
    ms := Then(p, ms, RESTING, log + [], Begin, AGAIN, []);
    ms := ThenTimes(p, ms, AGAIN, log + [] + [], 2, LOCKED, TESTED, []);
    assert log + [] + [] + [] == log;
    ms := Then(p, ms, TESTED, log, TearDown, TESTED.(teardown := 1), [TornDown]);
    log := log + [TornDown];
    ms := Then(p, ms, TESTED.(teardown := 1), log, TearDown, TESTED.(teardown := 2, pending := false), []);
    ms := Then(p, ms, TESTED.(teardown := 2, pending := false), log + [], TearDown,
               TESTED.(teardown := 3, pending := false, didSelect := false), []);
    ms := Then(p, ms, TESTED.(teardown := 3, pending := false, didSelect := false), log + [] + [], LOCKED,
               OUTER.(teardown := 3, didSelect := true), [ShardSelect(0)]);
    assert log + [] + [] + [ShardSelect(0)] == [Activated(0), ShardSelect(0), TornDown, ShardSelect(0)];
  }

  lemma NotFollowing(e: Emit, f: Emit)
    requires (e == ENTER && (f == ENTER || f == RequestState(0, false))) || (e == TornDown && f == ShardSelect(0))
    ensures FollowAll(Quiet, [Activated(0), ShardSelect(0), e, f]).None?
  {
    var log := [Activated(0), ShardSelect(0), e, f];
    assert log[1..] == [ShardSelect(0), e, f] && log[1..][1..] == [e, f] && log[1..][1..][1..] == [f];
    assert FollowAll(Quiet, log) == FollowAll(Stage.Armed(0), log[1..]) == FollowAll(Selected, log[1..][1..])
        == FollowAll(Quiet, [f]);
  }

  /**
   * In every run the messages follow the protocol exactly if pumps begin inside no call but the scene
   * request and no teardown runs beside a pump.
   */
  lemma ProtocolIff(p: Policy)
    ensures (forall ms :: Obeys(p, Start(), ms) ==> FollowAll(Quiet, Messages(Start(), ms)).Some?)
       <==> !p.inSelect && !p.inNotify && !p.teardown
  {
    if p.inSelect {
      var ms := TwoEnters(p);
      NotFollowing(ENTER, ENTER);
    } else if p.inNotify {
      var ms := LateRequest(p);
      NotFollowing(ENTER, RequestState(0, false));
    } else if p.teardown {
      var ms := TwoSelects(p);
      NotFollowing(TornDown, ShardSelect(0));
    } else {
      forall ms | Obeys(p, Start(), ms) ensures FollowAll(Quiet, Messages(Start(), ms)).Some? {
        var last := PolicyFollows(p, Start(), ms, Quiet);
      }
    }
  }

  /** In such runs no kind of message is sent more often than commands are drained, teardowns or not. */
  lemma OrderlySends(p: Policy, ms: seq<Move>)
    requires !p.inSelect && !p.inNotify && !p.teardown && Obeys(p, Start(), ms)
    ensures var log := Messages(Start(), ms);
            && Count(log, Select) <= Count(log, Command)
            && Count(log, Request) <= Count(log, Command)
            && Count(log, Enter) <= Count(log, Command)
  {
    var last := PolicyFollows(p, Start(), ms, Quiet);
    NeverMoreThanArmed(Quiet, Messages(Start(), ms));
  }

  // ---- Undisturbed runs are runs of the flow that is pumped at once ----

  /** Pumps begin and teardowns run only when no pump is running. */
  const UNDISTURBED := Policy(false, false, false, false)

  predicate SameFlags(s: Flags, n: Flow) {
    && s.pending == n.pending && s.index == n.index
    && s.didSelect == n.didSelect && s.didRequest == n.didRequest && s.didNotify == n.didNotify
  }

  /**
   * The fine state `s` and the coarse state `n` that has sent all but the last messages, `sent`. The
   * coarse machine arms, clears and tears down at the first store, and pumps when the pump's last
   * message is decided.
   */
  ghost predicate Matches(s: Flags, n: Flow, sent: seq<Emit>) {
    && s.waiting == [] && n.queue == []
    && if s.teardown > 0 then TearingAtRest(s) && n.phase == Idle && SameFlags(Wiped(s), n) && sent == []
       else PumpMatches(s, n, sent)
  }

  /** All flags cleared. */
  function Wiped(s: Flags): Flags {
    s.(pending := false, didSelect := false, didRequest := false, didNotify := false)
  }

  /** The flow armed. */
  function Loaded(s: Flags, envIndex: int): Flags {
    Wiped(s).(pending := true, index := envIndex)
  }

  /** Past its send of 0x3EB2, undecided yet. */
  ghost predicate Undecided(s: Flags, n: Flow, sent: seq<Emit>) {
    && n.phase == Pumping && n.pending && SameFlags(s, n.(didSelect := true))
    && sent == if n.didSelect then [] else [ShardSelect(n.index)]
  }

  ghost predicate PumpMatches(s: Flags, n: Flow, sent: seq<Emit>) {
    match s.at
    case AtRest => n.phase == Idle && SameFlags(s, n) && sent == []
    case Drain => n.phase == Draining && SameFlags(s, n) && sent == []
    case Arm(done, envIndex) =>
      && n.phase == Draining && SameFlags(Loaded(s, envIndex), n) && sent == []
      && (done >= 1 ==> s.index == envIndex)
      && (done >= 2 ==> !s.didSelect) && (done >= 3 ==> !s.didRequest) && (done >= 4 ==> !s.didNotify)
    case TestPending => n.phase == Pumping && SameFlags(s, n) && sent == []
    case WinSelect => n.phase == Pumping && n.pending && SameFlags(s, n) && sent == []
    case InSelect => Undecided(s, n, sent)
    case ReadScene => Undecided(s, n, sent)
    case WinNotify => Undecided(s, n, sent)
    case ReadLock(scene) => Undecided(s, n, sent) && scene != SCENE_LOBBY
    case WinRequest(scene) => Undecided(s, n, sent) && scene != SCENE_LOBBY
    case InNotify => n.phase == Idle && SameFlags(Wiped(s), n) && sent == []
    case Clear(done) =>
      && n.phase == Idle && SameFlags(Wiped(s), n) && sent == []
      && (done >= 1 ==> !s.pending) && (done >= 2 ==> !s.didSelect) && (done >= 3 ==> !s.didRequest)
    case InRequest => n.phase == Idle && SameFlags(s, n) && sent == []
  }

  /** The coarse steps `es` catch up with one fine move, all but `left` of its messages sent. */
  ghost predicate CatchesUp(s: Flags, m: Move, n: Flow, sent: seq<Emit>, es: seq<Event>, left: seq<Emit>) {
    Matches(Moved(s, m).0, Run(n, es), left) && sent + Moved(s, m).1 == Log(n, es) + left
  }

  lemma RestCatchesUp(s: Flags, m: Move, n: Flow, sent: seq<Emit>) returns (es: seq<Event>)
    requires Matches(s, n, sent) && s.at == AtRest && Allowed(UNDISTURBED, s, m)
    ensures CatchesUp(s, m, n, sent, es, [])
  {
    es := if m == Begin then [PumpBegins] else if m == TearDown && s.teardown == 0 then [Teardown] else [];
    if es != [] {
      OneStep(n, es[0]);
    }
    hide ClearStore;
    if s.teardown > 0 {
      ClearsOne(s, s.teardown - 1);
    }
  }

  lemma DrainCatchesUp(s: Flags, m: Move, n: Flow, sent: seq<Emit>) returns (es: seq<Event>)
    requires Matches(s, n, sent) && s.teardown == 0 && m.Proceed? && s.at == Drain
    ensures CatchesUp(s, m, n, sent, es, [])
  {
    es := [];
    if m.cmd.None? {
      es := [DrainOne(m.envIndex)];
      OneStep(n, es[0]);
    } else if m.cmd.value == PassShardSelect {
      var first, second := [Enqueued(PassShardSelect)], [DrainOne(m.envIndex)];
      es := first + second;
      OneStep(n, first[0]);
      OneStep(Run(n, first), second[0]);
      RunConcat(n, first, second);
    }
  }

  lemma StoreCatchesUp(s: Flags, m: Move, n: Flow, sent: seq<Emit>)
    requires Matches(s, n, sent) && s.teardown == 0 && m.Proceed? && (s.at.Arm? || s.at.Clear? || s.at == InNotify)
    ensures CatchesUp(s, m, n, sent, [], [])
  {
    hide ClearStore;
    if s.at.Clear? {
      ClearsOne(s, s.at.stores);
    }
  }

  lemma SelectCatchesUp(s: Flags, m: Move, n: Flow, sent: seq<Emit>) returns (es: seq<Event>, left: seq<Emit>)
    requires Matches(s, n, sent) && s.teardown == 0 && m.Proceed?
    requires s.at == TestPending || s.at == WinSelect || s.at == InSelect || s.at == ReadScene || s.at == InRequest
    ensures CatchesUp(s, m, n, sent, es, left)
  {
    es, left := [], sent + Moved(s, m).1;
    if s.at == TestPending && !s.pending {
      es := [PumpFlow(m.scene, m.locked)];
      OneStep(n, es[0]);
    }
  }

  lemma ReturnKeepsFlags(s: Flags)
    requires s.waiting == []
    ensures Returned(s) == s.(at := AtRest)
  {
  }

  lemma DecisionCatchesUp(s: Flags, m: Move, n: Flow, sent: seq<Emit>) returns (es: seq<Event>, left: seq<Emit>)
    requires Matches(s, n, sent) && s.teardown == 0 && m.Proceed?
    requires s.at == WinNotify || s.at.ReadLock? || s.at.WinRequest?
    ensures CatchesUp(s, m, n, sent, es, left)
  {
    hide Returned;
    ReturnKeepsFlags(s);
    ReturnKeepsFlags(s.(didRequest := true));
    es, left := [], sent;
    if s.at == WinNotify {
      es, left := [PumpFlow(SCENE_LOBBY, false)], [];
      OneStep(n, es[0]);
    } else if s.at.WinRequest? {
      es, left := [PumpFlow(s.at.scene, false)], [];
      OneStep(n, es[0]);
    } else if m.locked {
      es, left := [PumpFlow(s.at.scene, true)], [];
      OneStep(n, es[0]);
    }
  }

  lemma MoveCatchesUp(s: Flags, m: Move, n: Flow, sent: seq<Emit>) returns (es: seq<Event>, left: seq<Emit>)
    requires Matches(s, n, sent) && Allowed(UNDISTURBED, s, m)
    ensures CatchesUp(s, m, n, sent, es, left)
  {
    hide CatchesUp;
    if s.at == AtRest {
      es := RestCatchesUp(s, m, n, sent);
      left := [];
    } else if m == Begin {
      es, left := [], sent;
      IdleCatchesUp(s, m, n, sent);
    } else if s.at == Drain {
      es := DrainCatchesUp(s, m, n, sent);
      left := [];
    } else if s.at.Arm? || s.at.Clear? || s.at == InNotify {
      StoreCatchesUp(s, m, n, sent);
      es, left := [], [];
    } else if s.at == WinNotify || s.at.ReadLock? || s.at.WinRequest? {
      es, left := DecisionCatchesUp(s, m, n, sent);
    } else {
      es, left := SelectCatchesUp(s, m, n, sent);
    }
  }

  /** A pump that may not begin where it would does not. */
  lemma IdleCatchesUp(s: Flags, m: Move, n: Flow, sent: seq<Emit>)
    requires Matches(s, n, sent) && s.at != AtRest && m == Begin && !InGame(s.at)
    ensures CatchesUp(s, m, n, sent, [], sent)
  {
  }

  /** The undisturbed fine machine is simulated by the coarse one, run by run. */
  lemma {:induction false} RunCatchesUp(s: Flags, ms: seq<Move>, n: Flow, sent: seq<Emit>)
    returns (es: seq<Event>, left: seq<Emit>)
    requires Matches(s, n, sent) && Obeys(UNDISTURBED, s, ms)
    ensures Matches(After(s, ms), Run(n, es), left)
    ensures sent + Messages(s, ms) == Log(n, es) + left
    decreases |ms|
  {
    hide Matches;
    hide Moved;
    hide Allowed;
    hide Step;
    if ms == [] {
      es, left := [], sent;
    } else {
      var (t, out) := Moved(s, ms[0]);
      var first, pause := MoveCatchesUp(s, ms[0], n, sent);
      var more;
      more, left := RunCatchesUp(t, ms[1..], Run(n, first), pause);
      es := first + more;
      RunConcat(n, first, more);
      HandOver(sent, out, Messages(t, ms[1..]), Log(n, first), pause, Log(Run(n, first), more), left);
    }
  }

  lemma HandOver(sent: seq<Emit>, out: seq<Emit>, rest: seq<Emit>,
                 a: seq<Emit>, pause: seq<Emit>, b: seq<Emit>, left: seq<Emit>)
    requires sent + out == a + pause && pause + rest == b + left
    ensures sent + (out + rest) == (a + b) + left
  {
    assert sent + (out + rest) == (sent + out) + rest;
    assert (a + pause) + rest == a + (pause + rest);
    assert a + (b + left) == (a + b) + left;
  }

  function FlowAtRest(): Flow {
    Flow([], Idle, false, 0, false, false, false, false)
  }

  /**
   * From the start: whatever commands, scenes and locks the pumps find and wherever teardowns run between
   * them, the messages are those of a run of the flow; between pumps and teardowns the flags are, too.
   */
  lemma UndisturbedIsFlow(ms: seq<Move>) returns (es: seq<Event>)
    requires Obeys(UNDISTURBED, Start(), ms) && After(Start(), ms).at == AtRest
    ensures Messages(Start(), ms) == Log(FlowAtRest(), es)
    ensures After(Start(), ms).teardown == 0 ==>
              SameFlags(After(Start(), ms), Run(FlowAtRest(), es)) && Run(FlowAtRest(), es).phase == Idle
  {
    var left;
    es, left := RunCatchesUp(Start(), ms, FlowAtRest(), []);
    assert [] + Messages(Start(), ms) == Messages(Start(), ms) && Log(FlowAtRest(), es) + [] == Log(FlowAtRest(), es);
  }
}
