/**
 * The shard-select flow: commands drained on the main thread arm a one-shot sequence of messages,
 * advanced by each pump according to the scene and the transition lock.
 */
module Nav {
  import opened Bytes
  import opened NavCommands

  const SCENE_LOBBY := 4

  // ---- The flow as a machine whose steps interleave with the reader thread ----

  datatype Phase = Idle | Draining | Pumping

  datatype Flow = Flow(
    queue: seq<NavCmd>,
    phase: Phase,
    pending: bool,
    index: int,
    didSelect: bool,
    didRequest: bool,
    didNotify: bool,
    loggedLock: bool)

  /** What the flow does that others can see, with what it saw when it did it. */
  datatype Emit =
    | Activated(index: int)                        // a command was drained
    | ShardSelect(index: int)                      // 0x3EB2
    | RequestState(scene: int, locked: bool)
    | LobbyEnter(scene: int)                       // 0x3F40
    | TornDown

  datatype Event =
    | Enqueued(cmd: NavCmd)                        // reader thread, at any time
    | PumpBegins
    | DrainOne(envIndex: int)                      // one turn of the drain loop
    | PumpFlow(scene: int, locked: bool)
    | Teardown                                     // between pumps

  function Cleared(n: Flow): Flow {
    n.(pending := false, didSelect := false, didRequest := false, didNotify := false)
  }

  /** The pass over the flags once the shard was selected. */
  function Advanced(n: Flow, scene: int, locked: bool): (Flow, seq<Emit>) {
    if scene == SCENE_LOBBY then
      (Cleared(n).(loggedLock := false), if n.didNotify then [] else [LobbyEnter(scene)])
    else if locked then
      (n.(loggedLock := true), [])
    else
      (n.(loggedLock := false, didRequest := true), if n.didRequest then [] else [RequestState(scene, locked)])
  }

  /** One pass over the flags. */
  function Pumped(n: Flow, scene: int, locked: bool): (Flow, seq<Emit>) {
    if !n.pending then (n, [])
    else
      var (m, out) := Advanced(n.(didSelect := true), scene, locked);
      (m, (if n.didSelect then [] else [ShardSelect(n.index)]) + out)
  }

  function Drained(n: Flow, envIndex: int): (Flow, seq<Emit>) {
    if n.queue == [] then (n.(phase := Pumping), [])
    else
      var left := n.(queue := n.queue[1..]);
      if n.queue[0] == PassShardSelect then
        (Cleared(left).(index := envIndex, pending := true), [Activated(envIndex)])
      else (left, [])
  }

  function Step(n: Flow, e: Event): (Flow, seq<Emit>) {
    match e
    case Enqueued(cmd) => (n.(queue := Offer(n.queue, cmd)), [])
    case PumpBegins => (if n.phase == Idle then n.(phase := Draining) else n, [])
    case DrainOne(envIndex) => if n.phase == Draining then Drained(n, envIndex) else (n, [])
    case PumpFlow(scene, locked) =>
      if n.phase == Pumping then
        var (m, out) := Pumped(n, scene, locked);
        (m.(phase := Idle), out)
      else (n, [])
    case Teardown => if n.phase == Idle then (Cleared(n), [TornDown]) else (n, [])
  }

  function Run(n: Flow, es: seq<Event>): Flow
    decreases |es|
  {
    if es == [] then n else Run(Step(n, es[0]).0, es[1..])
  }

  function Log(n: Flow, es: seq<Event>): seq<Emit>
    decreases |es|
  {
    if es == [] then [] else Step(n, es[0]).1 + Log(Step(n, es[0]).0, es[1..])
  }

  // ---- The protocol the messages must follow ----

  /** Where the conversation is: nothing armed, armed but silent, shard selected, scene requested. */
  datatype Stage = Quiet | Armed(index: int) | Selected | Requested

  function Follow(stage: Stage, e: Emit): Option<Stage> {
    match e
    case Activated(index) => Some(Armed(index))
    case ShardSelect(index) => if stage == Armed(index) then Some(Selected) else None
    case RequestState(scene, locked) =>
      if stage == Selected && scene != SCENE_LOBBY && !locked then Some(Requested) else None
    case LobbyEnter(scene) =>
      if (stage == Selected || stage == Requested) && scene == SCENE_LOBBY then Some(Quiet) else None
    case TornDown => Some(Quiet)
  }

  function FollowAll(stage: Stage, log: seq<Emit>): Option<Stage>
    decreases |log|
  {
    if log == [] then Some(stage)
    else
      match Follow(stage, log[0])
      case None => None
      case Some(next) => FollowAll(next, log[1..])
  }

  /** The stage the flags stand for. */
  function StageOf(n: Flow): Stage {
    if !n.pending then Quiet
    else if !n.didSelect then Armed(n.index)
    else if !n.didRequest then Selected
    else Requested
  }

  /** No one-shot flag is set without a pending flow, and none ahead of its turn. */
  ghost predicate FlagsInOrder(n: Flow) {
    && !n.didNotify
    && (n.didRequest ==> n.didSelect)
    && (n.didSelect ==> n.pending)
  }

  lemma StepFollows(n: Flow, e: Event)
    requires FlagsInOrder(n)
    ensures FlagsInOrder(Step(n, e).0)
    ensures FollowAll(StageOf(n), Step(n, e).1) == Some(StageOf(Step(n, e).0))
  {
    var out := Step(n, e).1;
    if |out| == 1 {
      assert FollowAll(StageOf(n), out) == Follow(StageOf(n), out[0]);
    } else if |out| == 2 {
      assert FollowAll(StageOf(n), out) == FollowAll(Selected, out[1..]);
      assert FollowAll(Selected, out[1..]) == Follow(Selected, out[1]);
    }
  }

  lemma {:induction false} FollowConcat(stage: Stage, a: seq<Emit>, b: seq<Emit>)
    requires FollowAll(stage, a).Some?
    ensures FollowAll(stage, a + b) == FollowAll(FollowAll(stage, a).value, b)
    decreases |a|
  {
    if a == [] {
      assert a + b == b;
    } else {
      assert (a + b)[0] == a[0] && (a + b)[1..] == a[1..] + b;
      FollowConcat(Follow(stage, a[0]).value, a[1..], b);
    }
  }

  /**
   * Flow safety: under every interleaving of enqueues, drains, pumps, scene and lock changes and
   * teardowns the messages follow the protocol, and the flags always stand for where it is.
   */
  lemma {:induction false} FlowSafety(n: Flow, es: seq<Event>)
    requires FlagsInOrder(n)
    ensures FlagsInOrder(Run(n, es))
    ensures FollowAll(StageOf(n), Log(n, es)) == Some(StageOf(Run(n, es)))
    decreases |es|
  {
    if es != [] {
      StepFollows(n, es[0]);
      var next := Step(n, es[0]).0;
      FlowSafety(next, es[1..]);
      FollowConcat(StageOf(n), Step(n, es[0]).1, Log(next, es[1..]));
    }
  }

  /** A pump always takes the conversation as far as the scene and the lock allow. */
  lemma PumpAdvances(n: Flow, scene: int, locked: bool)
    requires FlagsInOrder(n) && n.phase == Pumping && n.pending
    ensures var stage := StageOf(Step(n, PumpFlow(scene, locked)).0);
            stage == if scene == SCENE_LOBBY then Quiet
                     else if n.didRequest || !locked then Requested
                     else Selected
    ensures Step(n, PumpFlow(scene, locked)).0.loggedLock <==> scene != SCENE_LOBBY && locked
  {
  }

  /** A teardown between pumps clears all flags and nothing else; a pump without a pending flow does nothing. */
  lemma TeardownClears(n: Flow, scene: int, locked: bool)
    ensures n.phase == Idle ==>
              Step(n, Teardown) == (Flow(n.queue, Idle, false, n.index, false, false, false, n.loggedLock), [TornDown])
    ensures n.phase == Pumping && !n.pending ==> Step(n, PumpFlow(scene, locked)) == (n.(phase := Idle), [])
  {
  }

  /** The whole conversation: one command, one pump outside the lobby, one pump in it. */
  lemma OneCommandConversation(n: Flow, envIndex: int, scene: int, locked: bool)
    requires n.queue == [] && n.phase == Idle && !n.pending && FlagsInOrder(n) && scene != SCENE_LOBBY
    ensures Log(n, [Enqueued(PassShardSelect)] + FullPump(envIndex, true, scene, false)
                   + FullPump(envIndex, false, SCENE_LOBBY, locked))
         == [Activated(envIndex), ShardSelect(envIndex), RequestState(scene, false), LobbyEnter(SCENE_LOBBY)]
  {
    var first, second := FullPump(envIndex, true, scene, false), FullPump(envIndex, false, SCENE_LOBBY, locked);
    OneStep(n, Enqueued(PassShardSelect));
    var a := Step(n, Enqueued(PassShardSelect)).0;
    RunConcat(n, [Enqueued(PassShardSelect)], first);
    RunConcat(n, [Enqueued(PassShardSelect)] + first, second);
    FullPumpLog(a, envIndex, scene, false);
    FullPumpLog(Run(a, first), envIndex, SCENE_LOBBY, locked);
  }

  /** A pump with nothing arriving meanwhile: the queued command, if any, then the empty queue. */
  function FullPump(envIndex: int, command: bool, scene: int, locked: bool): seq<Event> {
    [PumpBegins] + (if command then [DrainOne(envIndex)] else []) + [DrainOne(envIndex), PumpFlow(scene, locked)]
  }

  lemma FullPumpLog(n: Flow, envIndex: int, scene: int, locked: bool)
    requires n.phase == Idle && (n.queue == [] || n.queue == [PassShardSelect])
    ensures var drained := if n.queue == [] then n else Cleared(n).(queue := [], index := envIndex, pending := true);
            var es := FullPump(envIndex, n.queue != [], scene, locked);
            && Run(n, es) == Pumped(drained.(phase := Pumping), scene, locked).0.(phase := Idle)
            && Log(n, es) == (if n.queue == [] then [] else [Activated(envIndex)])
                             + Pumped(drained.(phase := Pumping), scene, locked).1
  {
    var es := FullPump(envIndex, n.queue != [], scene, locked);
    var begun := n.(phase := Draining);
    var last := [DrainOne(envIndex), PumpFlow(scene, locked)];
    var drained := if n.queue == [] then begun else Drained(begun, envIndex).0;
    assert last[1..] == [PumpFlow(scene, locked)];
    OneStep(drained.(phase := Pumping), PumpFlow(scene, locked));
    assert Log(drained, last) == [] + Log(drained.(phase := Pumping), last[1..]);
    OneStep(n, PumpBegins);
    if n.queue == [] {
      RunConcat(n, [PumpBegins], last);
      assert es == [PumpBegins] + last;
    } else {
      OneStep(begun, DrainOne(envIndex));
      RunConcat(n, [PumpBegins], [DrainOne(envIndex)]);
      RunConcat(n, [PumpBegins] + [DrainOne(envIndex)], last);
    }
  }

  datatype Kind = Command | Select | Request | Enter | Stop

  function KindOf(e: Emit): Kind {
    match e
    case Activated(_) => Command
    case ShardSelect(_) => Select
    case RequestState(_, _) => Request
    case LobbyEnter(_) => Enter
    case TornDown => Stop
  }

  function Count(log: seq<Emit>, kind: Kind): nat {
    if log == [] then 0 else (if KindOf(log[0]) == kind then 1 else 0) + Count(log[1..], kind)
  }

  /** A conversation that follows the protocol never sends more of anything than was armed. */
  lemma {:induction false} NeverMoreThanArmed(stage: Stage, log: seq<Emit>)
    requires FollowAll(stage, log).Some?
    ensures Count(log, Select) <= Count(log, Command) + (if stage.Armed? then 1 else 0)
    ensures Count(log, Request) <= Count(log, Command) + (if stage.Armed? || stage.Selected? then 1 else 0)
    ensures Count(log, Enter) <= Count(log, Command) + (if stage.Quiet? then 0 else 1)
    decreases |log|
  {
    if log != [] {
      NeverMoreThanArmed(Follow(stage, log[0]).value, log[1..]);
    }
  }

  /** From a quiet start: each kind of message is sent at most once for every command drained. */
  lemma SendsNeverExceedCommands(n: Flow, es: seq<Event>)
    requires FlagsInOrder(n) && !n.pending
    ensures var log := Log(n, es);
            && Count(log, Select) <= Count(log, Command)
            && Count(log, Request) <= Count(log, Command)
            && Count(log, Enter) <= Count(log, Command)
  {
    FlowSafety(n, es);
    NeverMoreThanArmed(Quiet, Log(n, es));
  }

  /** Commands the reader thread got into the queue during a run. */
  function AdmittedIn(n: Flow, es: seq<Event>): nat
    decreases |es|
  {
    if es == [] then 0
    else (if es[0].Enqueued? && Accepts(n.queue, es[0].cmd) then 1 else 0) + AdmittedIn(Step(n, es[0]).0, es[1..])
  }

  /** No command is acted on twice: drained commands and those still queued were all admitted. */
  lemma {:induction false} CommandsWereAdmitted(n: Flow, es: seq<Event>)
    ensures Count(Log(n, es), Command) + |Run(n, es).queue| <= |n.queue| + AdmittedIn(n, es)
    decreases |es|
  {
    if es != [] {
      var out, next := Step(n, es[0]).1, Step(n, es[0]).0;
      CommandsWereAdmitted(next, es[1..]);
      CountConcat(out, Log(next, es[1..]), Command);
      OneStepCommands(n, es[0]);
    }
  }

  /** While only this command is queued: every admitted one is acted on once or still waiting. */
  lemma {:induction false} EveryCommandActs(n: Flow, es: seq<Event>)
    requires forall c <- n.queue :: c == PassShardSelect
    ensures Count(Log(n, es), Command) + |Run(n, es).queue| == |n.queue| + AdmittedIn(n, es)
    decreases |es|
  {
    if es != [] {
      var out, next := Step(n, es[0]).1, Step(n, es[0]).0;
      CommandActs(n, es[0]);
      EveryCommandActs(next, es[1..]);
      CountConcat(out, Log(next, es[1..]), Command);
    }
  }

  lemma CommandActs(n: Flow, e: Event)
    requires forall c <- n.queue :: c == PassShardSelect
    ensures forall c <- Step(n, e).0.queue :: c == PassShardSelect
    ensures Count(Step(n, e).1, Command) + |Step(n, e).0.queue|
         == |n.queue| + (if e.Enqueued? && Accepts(n.queue, e.cmd) then 1 else 0)
  {
    if e.DrainOne? && n.phase == Draining && n.queue != [] {
      assert n.queue[0] in n.queue;
    } else {
      NoneCounted(Step(n, e).1, Command);
    }
  }

  /** A drained command arms the flow from scratch, whatever was going on. */
  lemma DrainArms(n: Flow, envIndex: int)
    requires n.phase == Draining && n.queue != [] && n.queue[0] == PassShardSelect
    ensures var (m, out) := Step(n, DrainOne(envIndex));
            && StageOf(m) == Armed(envIndex) && out == [Activated(envIndex)]
            && m.queue == n.queue[1..] && m.phase == Draining
  {
  }

  lemma OneStepCommands(n: Flow, e: Event)
    ensures Count(Step(n, e).1, Command) + |Step(n, e).0.queue|
         <= |n.queue| + (if e.Enqueued? && Accepts(n.queue, e.cmd) then 1 else 0)
  {
    if !e.DrainOne? {
      NoneCounted(Step(n, e).1, Command);
    }
  }

  lemma NoneCounted(log: seq<Emit>, kind: Kind)
    requires forall e <- log :: KindOf(e) != kind
    ensures Count(log, kind) == 0
  {
  }

  lemma {:induction false} CountConcat(a: seq<Emit>, b: seq<Emit>, kind: Kind)
    ensures Count(a + b, kind) == Count(a, kind) + Count(b, kind)
    decreases |a|
  {
    if a == [] {
      assert a + b == b;
    } else {
      assert (a + b)[0] == a[0] && (a + b)[1..] == a[1..] + b;
      CountConcat(a[1..], b, kind);
    }
  }

  lemma {:induction false} RunConcat(n: Flow, es: seq<Event>, fs: seq<Event>)
    ensures Run(n, es + fs) == Run(Run(n, es), fs)
    ensures Log(n, es + fs) == Log(n, es) + Log(Run(n, es), fs)
    decreases |es|
  {
    if es == [] {
      assert es + fs == fs;
    } else {
      assert (es + fs)[0] == es[0] && (es + fs)[1..] == es[1..] + fs;
      RunConcat(Step(n, es[0]).0, es[1..], fs);
      Regroup(Step(n, es[0]).1, Log(Step(n, es[0]).0, es[1..]), Log(Run(n, es), fs));
    }
  }

  // ---- The flags and loops of the program ----

  /** What meets one turn of the drain loop: commands the reader adds first, then the configured index. */
  datatype Turn = Turn(arrivals: seq<NavCmd>, envIndex: int)

  class NavFlow {
    const queue: NavQueue
    var pending: bool
    var index: int
    var didSelect: bool
    var didRequest: bool
    var didNotify: bool
    var loggedLock: bool
    ghost var phase: Phase
    ghost var log: seq<Emit>

    ghost predicate Valid()
      reads this, queue
    {
      queue.Valid()
    }

    ghost function State(): Flow
      requires Valid()
      reads this, queue, queue.queue
    {
      Flow(queue.Contents(), phase, pending, index, didSelect, didRequest, didNotify, loggedLock)
    }

    constructor ()
      ensures Valid() && fresh(queue) && fresh(queue.queue)
      ensures State() == Flow([], Idle, false, 0, false, false, false, false) && log == []
    {
      queue := new NavQueue();
      pending, index, didSelect, didRequest, didNotify, loggedLock := false, 0, false, false, false, false;
      phase, log := Idle, [];
    }

    /** From the state `n` with log `before`, the object made exactly the steps `es`. */
    ghost predicate Made(n: Flow, before: seq<Emit>, es: seq<Event>)
      requires Valid()
      reads this, queue, queue.queue
    {
      State() == Run(n, es) && log == before + Log(n, es)
    }

    method ClearPassShardFlow()
      requires Valid()
      modifies `pending, `didSelect, `didRequest, `didNotify
      ensures Valid() && State() == Cleared(old(State()))
    {
      pending := false;
      didSelect := false;
      didRequest := false;
      didNotify := false;
    }

    method PumpPassShardSelect(scene: int, locked: bool)
      requires Valid()
      modifies `pending, `didSelect, `didRequest, `didNotify, `loggedLock, `log
      ensures Valid()
      ensures State() == Pumped(old(State()), scene, locked).0
      ensures log == old(log) + Pumped(old(State()), scene, locked).1
    {
      hide Advanced;
      if !pending {
        return;
      }
      if !didSelect {
        didSelect := true;
        log := log + [ShardSelect(index)];
      }
      Advance(scene, locked);
    }

    method Advance(scene: int, locked: bool)
      requires Valid()
      modifies `pending, `didSelect, `didRequest, `didNotify, `loggedLock, `log
      ensures Valid()
      ensures State() == Advanced(old(State()), scene, locked).0
      ensures log == old(log) + Advanced(old(State()), scene, locked).1
    {
      if scene == SCENE_LOBBY {
        if !didNotify {
          didNotify := true;
          log := log + [LobbyEnter(scene)];
        }
        ClearPassShardFlow();
        loggedLock := false;
        return;
      }
      if locked {
        loggedLock := true;
        return;
      }
      loggedLock := false;
      if !didRequest {
        didRequest := true;
        log := log + [RequestState(scene, locked)];
      }
    }

    method PumpAndRest(scene: int, locked: bool)
      requires Valid() && phase == Pumping
      modifies this
      ensures Valid() && Made(old(State()), old(log), [PumpFlow(scene, locked)]) && phase == Idle
    {
      hide Run;
      hide Log;
      OneStep(State(), PumpFlow(scene, locked));
      PumpPassShardSelect(scene, locked);
      phase := Idle;
    }

    /** One dequeue and, for a shard-select command, arming the flow from scratch. */
    method DrainStep(envIndex: int) returns (more: bool)
      requires Valid() && phase == Draining
      modifies this, queue
      ensures Valid() && Made(old(State()), old(log), [DrainOne(envIndex)])
      ensures more == (old(queue.Contents()) != []) && queue.Contents() == Rest(old(queue.Contents()))
      ensures phase == if more then Draining else Pumping
    {
      OneStep(State(), DrainOne(envIndex));
      var cmd := queue.Dequeue();
      if cmd.None? {
        phase := Pumping;
        return false;
      }
      if cmd.value == PassShardSelect {
        index := envIndex;
        didSelect := false;
        didRequest := false;
        didNotify := false;
        pending := true;
        log := log + [Activated(envIndex)];
      }
      return true;
    }

    method EnqueueCommand(cmd: NavCmd)
      requires Valid()
      modifies queue, queue.queue
      ensures Valid() && Made(old(State()), old(log), [Enqueued(cmd)])
    {
      OneStep(State(), Enqueued(cmd));
      queue.Enqueue(cmd);
    }

    /** Clears the flow wherever it is; between pumps that is the teardown step of the flow. */
    method Teardown()
      requires Valid()
      modifies this
      ensures Valid() && State() == Cleared(old(State())) && log == old(log) + [TornDown]
      ensures old(phase) == Idle ==> Made(old(State()), old(log), [Event.Teardown])
    {
      OneStep(State(), Event.Teardown);
      ClearPassShardFlow();
      log := log + [TornDown];
    }

    /** The reader thread adds commands. */
    method Arrive(cmds: seq<NavCmd>, ghost n: Flow, ghost before: seq<Emit>, ghost done: seq<Event>)
      returns (ghost es: seq<Event>)
      requires Valid() && Made(n, before, done)
      modifies queue, queue.queue
      ensures Valid() && Made(n, before, done + es)
      ensures forall e <- es :: e.Enqueued?
    {
      hide Run;
      hide Log;
      es := [];
      assert done + es == done;
      var i := 0;
      while i < |cmds|
        invariant Valid() && Made(n, before, done + es)
        invariant forall e <- es :: e.Enqueued?
      {
        RunConcat(n, done + es, [Enqueued(cmds[i])]);
        EnqueueCommand(cmds[i]);
        Regroup(done, es, [Enqueued(cmds[i])]);
        es := es + [Enqueued(cmds[i])];
        i := i + 1;
      }
    }

    /** The drain loop, the reader thread adding commands between any two turns. */
    method DrainCommands(turns: seq<Turn>, lastIndex: int,
                         ghost n: Flow, ghost before: seq<Emit>, ghost done: seq<Event>)
      returns (ghost es: seq<Event>)
      requires Valid() && phase == Draining && Made(n, before, done)
      modifies this, queue, queue.queue
      ensures Valid() && phase == Pumping && Made(n, before, done + es)
      ensures forall e <- es :: e.Enqueued? || e.DrainOne?
    {
      hide Run;
      hide Log;
      var k, more := 0, true;
      es := [];
      assert done + es == done;
      while more
        invariant 0 <= k <= |turns| && Valid() && Made(n, before, done + es)
        invariant phase == if more then Draining else Pumping
        invariant forall e <- es :: e.Enqueued? || e.DrainOne?
        decreases |turns| - k, |queue.Contents()|, more
      {
        var envIndex := lastIndex;
        if k < |turns| {
          var arrived := Arrive(turns[k].arrivals, n, before, done + es);
          Regroup(done, es, arrived);
          es := es + arrived;
          envIndex := turns[k].envIndex;
          k := k + 1;
        }
        RunConcat(n, done + es, [DrainOne(envIndex)]);
        more := DrainStep(envIndex);
        Regroup(done, es, [DrainOne(envIndex)]);
        es := es + [DrainOne(envIndex)];
      }
    }

    /** A pump: drain everything, then one pass over the flags. */
    method Pump(turns: seq<Turn>, lastIndex: int, scene: int, locked: bool) returns (ghost es: seq<Event>)
      requires Valid() && phase == Idle
      modifies this, queue, queue.queue
      ensures Valid() && phase == Idle && Made(old(State()), old(log), es)
      ensures |es| >= 2 && es[0] == PumpBegins && es[|es| - 1] == PumpFlow(scene, locked)
      ensures forall e <- es[1..|es| - 1] :: e.Enqueued? || e.DrainOne?
    {
      hide Run;
      hide Log;
      ghost var n, before := State(), log;
      OneStep(n, PumpBegins);
      phase := Draining;
      var drained := DrainCommands(turns, lastIndex, n, before, [PumpBegins]);
      RunConcat(n, [PumpBegins] + drained, [PumpFlow(scene, locked)]);
      PumpAndRest(scene, locked);
      es := [PumpBegins] + drained + [PumpFlow(scene, locked)];
      assert es[1..|es| - 1] == drained;
    }
  }

  lemma OneStep(n: Flow, e: Event)
    ensures Run(n, [e]) == Step(n, e).0 && Log(n, [e]) == Step(n, e).1
  {
    assert [e][1..] == [];
    assert Log(n, [e]) == Step(n, e).1 + [];
  }
}
