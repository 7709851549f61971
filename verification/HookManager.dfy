/**
 * The hook manager over a byte memory: it saves twelve bytes, patches five, restores twelve, and runs
 * a function with the hook lifted. Writes may fail; the function may itself use the manager.
 */
module HookManager {
  import opened Bytes

  const WINDOW := 12
  const PATCH := 5
  const IMAGE_BASE := 0x40_0000
  const JMP: byte := 0xE9

  type uint32 = v: int | 0 <= v < TWO32
  type Saved = b: seq<byte> | |b| == WINDOW witness [0, 0, 0, 0, 0, 0, 0, 0, 0, 0, 0, 0]

  /** Where a stub's code starts and where its hook is. */
  datatype Site = Site(target: uint32, hook: uint32)

  /** The system's answers around one patch. */
  datatype Env = Env(moduleFound: bool, protectOk: bool, writeOk: bool) {
    predicate Writes() {
      protectOk && writeOk
    }
  }

  /** The process memory, each stub's saved bytes and flag, and the stubs registered, repetitions included. */
  datatype World = World(mem: seq<byte>, original: seq<Saved>, hooked: seq<bool>, registered: seq<nat>)

  /** A use of the manager; the function run under Invoke is the uses it makes in turn. */
  datatype Op =
    | Make(i: nat, env: Env)
    | Restore(i: nat, env: Env)
    | Invoke(i: nat, before: Env, after: Env, hasFn: bool, body: seq<Op>)

  /** Load-time relocation in 32-bit address arithmetic. */
  function Relocated(addr: uint32, base: uint32): uint32 {
    (addr + base - IMAGE_BASE) % TWO32
  }

  function Write(mem: seq<byte>, at: nat, bytes: seq<byte>): (m: seq<byte>)
    requires at + |bytes| <= |mem|
    ensures |m| == |mem|
    ensures forall a :: 0 <= a < |m| ==> m[a] == if at <= a < at + |bytes| then bytes[a - at] else mem[a]
  {
    mem[..at] + bytes + mem[at + |bytes|..]
  }

  function Jump(s: Site): (p: seq<byte>)
    ensures |p| == PATCH
  {
    [JMP] + ToLE32(s.hook - (s.target + PATCH))
  }

  /** Where the processor goes from a jump instruction at `target`. */
  function Destination(target: uint32, patch: seq<byte>): uint32
    requires |patch| == PATCH
  {
    (target + PATCH + FromLE32(patch[1..])) % TWO32
  }

  /** The patch is a jump and lands on the hook, whatever the distance and its sign. */
  lemma JumpLands(s: Site)
    ensures Jump(s)[0] == JMP && Destination(s.target, Jump(s)) == s.hook
  {
    var rel := s.hook - (s.target + PATCH);
    assert Jump(s)[1..] == ToLE32(rel);
    LE32RoundTrip(rel);
    assert s.target + PATCH + rel % TWO32 == s.hook + TWO32 * -(rel / TWO32);
  }

  // ---- The operations ----

  predicate WellFormed(sites: seq<Site>, w: World) {
    && |w.original| == |sites| && |w.hooked| == |sites|
    && forall s <- sites :: s.target + WINDOW <= |w.mem|
  }

  function Patched(sites: seq<Site>, w: World, i: nat): World
    requires WellFormed(sites, w) && i < |sites|
  {
    w.(mem := Write(w.mem, sites[i].target, Jump(sites[i])), hooked := w.hooked[i := true])
  }

  function Unpatched(sites: seq<Site>, w: World, i: nat): World
    requires WellFormed(sites, w) && i < |sites|
  {
    w.(mem := Write(w.mem, sites[i].target, w.original[i]), hooked := w.hooked[i := false])
  }

  function Window(sites: seq<Site>, mem: seq<byte>, i: nat): Saved
    requires i < |sites| && sites[i].target + WINDOW <= |mem|
  {
    mem[sites[i].target..sites[i].target + WINDOW]
  }

  function Made(sites: seq<Site>, w: World, i: nat, env: Env): (World, bool)
    requires WellFormed(sites, w) && i < |sites|
  {
    if w.hooked[i] then (w, true)
    else if !env.moduleFound then (w, false)
    else
      var saved := w.(original := w.original[i := Window(sites, w.mem, i)]);
      if !env.Writes() then (saved, false)
      else (Patched(sites, saved, i).(registered := w.registered + [i]), true)
  }

  function Restored(sites: seq<Site>, w: World, i: nat, env: Env): (World, bool)
    requires WellFormed(sites, w) && i < |sites|
  {
    if !w.hooked[i] then (w, true)
    else if !env.Writes() then (w, false)
    else (Unpatched(sites, w, i), true)
  }

  /** The state in which Invoke runs its function; None when it gives up before. */
  function Lifted(sites: seq<Site>, w: World, i: nat, before: Env, hasFn: bool): Option<World>
    requires WellFormed(sites, w) && i < |sites|
  {
    if !before.moduleFound || !hasFn then None
    else if !w.hooked[i] then Some(w)
    else if !before.Writes() then None
    else Some(Unpatched(sites, w, i))
  }

  /** Invoke's last act. It neither saves the original bytes nor registers the stub. */
  function Lowered(sites: seq<Site>, w: World, i: nat, after: Env): World
    requires WellFormed(sites, w) && i < |sites|
  {
    if w.hooked[i] || !after.Writes() then w else Patched(sites, w, i)
  }

  predicate Indexed(op: Op, n: nat)
    decreases op, 1
  {
    op.i < n && (op.Invoke? ==> IndexedAll(op.body, n))
  }

  predicate IndexedAll(ops: seq<Op>, n: nat)
    decreases ops, 0
  {
    ops == [] || (Indexed(ops[0], n) && IndexedAll(ops[1..], n))
  }

  function Exec(sites: seq<Site>, w: World, op: Op): (v: World)
    requires WellFormed(sites, w) && Indexed(op, |sites|)
    ensures WellFormed(sites, v)
    decreases op, 1
  {
    match op
    case Make(i, env) => Made(sites, w, i, env).0
    case Restore(i, env) => Restored(sites, w, i, env).0
    case Invoke(i, before, after, hasFn, body) =>
      match Lifted(sites, w, i, before, hasFn)
      case None => w
      case Some(v) => Lowered(sites, ExecAll(sites, v, body), i, after)
  }

  function ExecAll(sites: seq<Site>, w: World, ops: seq<Op>): (v: World)
    requires WellFormed(sites, w) && IndexedAll(ops, |sites|)
    ensures WellFormed(sites, v)
    decreases ops, 0
  {
    if ops == [] then w else ExecAll(sites, Exec(sites, w, ops[0]), ops[1..])
  }

  predicate AllBelow(hooks: seq<nat>, n: nat) {
    forall k :: 0 <= k < |hooks| ==> hooks[k] < n
  }

  /** The loop over the registered stubs: it goes on to the next only while everything succeeded. */
  function RestoreAllFrom(sites: seq<Site>, w: World, hooks: seq<nat>, envs: seq<Env>, status: bool): (World, bool)
    requires WellFormed(sites, w) && |envs| == |hooks| && AllBelow(hooks, |sites|)
    decreases |hooks|
  {
    if hooks == [] then (w, status)
    else if !status then RestoreAllFrom(sites, w, hooks[1..], envs[1..], false)
    else
      var (v, ok) := Restored(sites, w, hooks[0], envs[0]);
      RestoreAllFrom(sites, v, hooks[1..], envs[1..], ok)
  }

  // ---- The invariant ----

  predicate Apart(s: Site, t: Site) {
    s.target + WINDOW <= t.target || t.target + WINDOW <= s.target
  }

  ghost predicate Disjoint(sites: seq<Site>) {
    forall i, j :: 0 <= i < |sites| && 0 <= j < |sites| && i != j ==> Apart(sites[i], sites[j])
  }

  /** Is this address among the patched bytes of a stub that is hooked now? */
  ghost predicate Covered(sites: seq<Site>, w: World, a: nat)
    requires WellFormed(sites, w)
  {
    exists i :: 0 <= i < |sites| && w.hooked[i] && sites[i].target <= a < sites[i].target + PATCH
  }

  /**
   * Memory is pristine except the first five bytes of each hooked stub, which hold its jump; every
   * registered stub has saved pristine bytes, and every hooked stub is registered.
   */
  ghost predicate Inv(sites: seq<Site>, pristine: seq<byte>, w: World) {
    && WellFormed(sites, w) && |w.mem| == |pristine|
    && (forall i :: 0 <= i < |sites| && w.hooked[i] ==>
          && i in w.registered
          && w.mem[sites[i].target..sites[i].target + PATCH] == Jump(sites[i]))
    && (forall a :: 0 <= a < |pristine| && !Covered(sites, w, a) ==> w.mem[a] == pristine[a])
    && AllBelow(w.registered, |sites|)
    && (forall i <- w.registered :: i < |sites| ==> w.original[i] == Window(sites, pristine, i))
  }

  lemma PatchedKeepsInv(sites: seq<Site>, pristine: seq<byte>, w: World, i: nat)
    requires Disjoint(sites) && Inv(sites, pristine, w) && i < |sites|
    requires !w.hooked[i] && i in w.registered
    ensures Inv(sites, pristine, Patched(sites, w, i))
  {
    var v := Patched(sites, w, i);
    forall k | 0 <= k < |sites| && v.hooked[k]
      ensures v.mem[sites[k].target..sites[k].target + PATCH] == Jump(sites[k])
    {
      if k != i {
        assert w.mem[sites[k].target..sites[k].target + PATCH] == v.mem[sites[k].target..sites[k].target + PATCH];
      }
    }
    forall a | 0 <= a < |pristine| && !Covered(sites, v, a)
      ensures v.mem[a] == pristine[a]
    {
      assert v.hooked[i];
      forall k | 0 <= k < |sites| && w.hooked[k]
        ensures !(sites[k].target <= a < sites[k].target + PATCH)
      {
        assert v.hooked[k];
      }
    }
  }

  /** Restoring one stub leaves every other stub's window alone. */
  lemma UnpatchedKeepsOthers(sites: seq<Site>, w: World, i: nat, k: nat)
    requires Disjoint(sites) && WellFormed(sites, w) && i < |sites| && k < |sites| && k != i
    ensures Window(sites, Unpatched(sites, w, i).mem, k) == Window(sites, w.mem, k)
  {
    assert Apart(sites[i], sites[k]);
  }

  lemma UnpatchedKeepsJumps(sites: seq<Site>, pristine: seq<byte>, w: World, i: nat, k: nat)
    requires Disjoint(sites) && Inv(sites, pristine, w) && i < |sites| && k < |sites| && w.hooked[k] && k != i
    ensures var mem := Unpatched(sites, w, i).mem;
            mem[sites[k].target..sites[k].target + PATCH] == Jump(sites[k])
  {
    var mem, t := Unpatched(sites, w, i).mem, sites[k].target;
    UnpatchedKeepsOthers(sites, w, i, k);
    assert mem[t..t + PATCH] == Window(sites, mem, k)[..PATCH];
    assert w.mem[t..t + PATCH] == Window(sites, w.mem, k)[..PATCH];
  }

  lemma UnpatchedIsPristine(sites: seq<Site>, pristine: seq<byte>, w: World, i: nat, a: nat)
    requires Disjoint(sites) && Inv(sites, pristine, w) && i < |sites| && w.hooked[i] && a < |pristine|
    requires !Covered(sites, Unpatched(sites, w, i), a)
    ensures Unpatched(sites, w, i).mem[a] == pristine[a]
  {
    var t, v := sites[i].target, Unpatched(sites, w, i);
    if t <= a < t + WINDOW {
      assert v.mem[a] == Window(sites, pristine, i)[a - t];
    } else {
      forall k | 0 <= k < |sites| && w.hooked[k]
        ensures !(sites[k].target <= a < sites[k].target + PATCH)
      {
        assert k == i || v.hooked[k];
      }
    }
  }

  lemma UnpatchedKeepsInv(sites: seq<Site>, pristine: seq<byte>, w: World, i: nat)
    requires Disjoint(sites) && Inv(sites, pristine, w) && i < |sites| && w.hooked[i]
    ensures Inv(sites, pristine, Unpatched(sites, w, i))
  {
    hide Jump;
    hide Covered;
    hide Disjoint;
    var v := Unpatched(sites, w, i);
    forall k | 0 <= k < |sites| && v.hooked[k]
      ensures v.mem[sites[k].target..sites[k].target + PATCH] == Jump(sites[k])
    {
      UnpatchedKeepsJumps(sites, pristine, w, i, k);
    }
    forall a | 0 <= a < |pristine| && !Covered(sites, v, a)
      ensures v.mem[a] == pristine[a]
    {
      UnpatchedIsPristine(sites, pristine, w, i, a);
    }
  }

  /** A stub that is not hooked has its pristine bytes in place: no neighbour reaches into its window. */
  lemma UnhookedIsPristine(sites: seq<Site>, pristine: seq<byte>, w: World, i: nat)
    requires Disjoint(sites) && Inv(sites, pristine, w) && i < |sites| && !w.hooked[i]
    ensures Window(sites, w.mem, i) == Window(sites, pristine, i)
  {
    forall a | sites[i].target <= a < sites[i].target + WINDOW
      ensures w.mem[a] == pristine[a]
    {
      assert !Covered(sites, w, a);
    }
  }

  lemma MakeKeepsInv(sites: seq<Site>, pristine: seq<byte>, w: World, i: nat, env: Env)
    requires Disjoint(sites) && Inv(sites, pristine, w) && i < |sites|
    ensures Inv(sites, pristine, Made(sites, w, i, env).0)
    ensures Made(sites, w, i, env).1 <==> Made(sites, w, i, env).0.hooked[i]
  {
    if !w.hooked[i] && env.moduleFound {
      UnhookedIsPristine(sites, pristine, w, i);
      var saved := w.(original := w.original[i := Window(sites, w.mem, i)]);
      assert forall a {:trigger Covered(sites, saved, a)} :: Covered(sites, saved, a) == Covered(sites, w, a);
      assert Inv(sites, pristine, saved);
      if env.Writes() {
        var registered := saved.(registered := w.registered + [i]);
        assert forall a {:trigger Covered(sites, registered, a)} ::
            Covered(sites, registered, a) == Covered(sites, saved, a);
        assert Inv(sites, pristine, registered);
        PatchedKeepsInv(sites, pristine, registered, i);
      }
    }
  }

  /** Invoke is used only on stubs registered before; checked as the run unfolds, at any depth. */
  ghost predicate Legal(sites: seq<Site>, w: World, op: Op)
    requires WellFormed(sites, w) && Indexed(op, |sites|)
    decreases op, 1
  {
    match op
    case Make(_, _) => true
    case Restore(_, _) => true
    case Invoke(i, before, _, hasFn, body) =>
      i in w.registered &&
      match Lifted(sites, w, i, before, hasFn)
      case None => true
      case Some(v) => LegalAll(sites, v, body)
  }

  ghost predicate LegalAll(sites: seq<Site>, w: World, ops: seq<Op>)
    requires WellFormed(sites, w) && IndexedAll(ops, |sites|)
    decreases ops, 0
  {
    ops == [] || (Legal(sites, w, ops[0]) && LegalAll(sites, Exec(sites, w, ops[0]), ops[1..]))
  }

  predicate NoInvokes(ops: seq<Op>) {
    forall op <- ops :: !op.Invoke?
  }

  /** Hooking and restoring are always legal, in any order. */
  lemma {:induction false} NoInvokesAreLegal(sites: seq<Site>, w: World, ops: seq<Op>)
    requires WellFormed(sites, w) && IndexedAll(ops, |sites|) && NoInvokes(ops)
    ensures LegalAll(sites, w, ops)
    decreases |ops|
  {
    if ops != [] {
      assert !ops[0].Invoke?;
      NoInvokesAreLegal(sites, Exec(sites, w, ops[0]), ops[1..]);
    }
  }

  /** One use of the manager, functions nested to any depth, keeps the invariant. */
  lemma {:induction false} ExecKeepsInv(sites: seq<Site>, pristine: seq<byte>, w: World, op: Op)
    requires Disjoint(sites) && Inv(sites, pristine, w) && Indexed(op, |sites|) && Legal(sites, w, op)
    ensures Inv(sites, pristine, Exec(sites, w, op))
    ensures w.registered <= Exec(sites, w, op).registered
    decreases op, 1
  {
    match op
    case Make(i, env) => MakeKeepsInv(sites, pristine, w, i, env);
    case Restore(i, env) =>
      if w.hooked[i] && env.Writes() {
        UnpatchedKeepsInv(sites, pristine, w, i);
      }
    case Invoke(i, before, after, hasFn, body) =>
      match Lifted(sites, w, i, before, hasFn) {
        case None =>
        case Some(v) =>
          if w.hooked[i] {
            UnpatchedKeepsInv(sites, pristine, w, i);
          }
          RunKeepsInv(sites, pristine, v, body);
          var u := ExecAll(sites, v, body);
          if !u.hooked[i] && after.Writes() {
            PatchedKeepsInv(sites, pristine, u, i);
          }
      }
  }

  /** So does every run. */
  lemma {:induction false} RunKeepsInv(sites: seq<Site>, pristine: seq<byte>, w: World, ops: seq<Op>)
    requires Disjoint(sites) && Inv(sites, pristine, w) && IndexedAll(ops, |sites|) && LegalAll(sites, w, ops)
    ensures Inv(sites, pristine, ExecAll(sites, w, ops))
    ensures w.registered <= ExecAll(sites, w, ops).registered
    decreases ops, 0
  {
    if ops != [] {
      ExecKeepsInv(sites, pristine, w, ops[0]);
      RunKeepsInv(sites, pristine, Exec(sites, w, ops[0]), ops[1..]);
    }
  }

  /**
   * From pristine memory, after any legal run with any failing writes: every hooked stub starts with a
   * jump to its hook, and every byte outside those jumps is as it was.
   */
  lemma HookMemory(sites: seq<Site>, w: World, ops: seq<Op>)
    requires Disjoint(sites) && WellFormed(sites, w) && w.registered == []
    requires forall i :: 0 <= i < |sites| ==> !w.hooked[i]
    requires IndexedAll(ops, |sites|) && LegalAll(sites, w, ops)
    ensures var v := ExecAll(sites, w, ops);
            && |v.mem| == |w.mem|
            && (forall i :: 0 <= i < |sites| && v.hooked[i] ==>
                  var patch := v.mem[sites[i].target..sites[i].target + PATCH];
                  patch[0] == JMP && Destination(sites[i].target, patch) == sites[i].hook)
            && (forall a :: 0 <= a < |w.mem| && !Covered(sites, v, a) ==> v.mem[a] == w.mem[a])
  {
    RunKeepsInv(sites, w.mem, w, ops);
    forall i | 0 <= i < |sites| {
      JumpLands(sites[i]);
    }
  }

  // ---- Restoring everything ----

  lemma {:induction false} RestoreAllKeeps(sites: seq<Site>, pristine: seq<byte>, w: World,
                                           hooks: seq<nat>, envs: seq<Env>, status: bool)
    requires Disjoint(sites) && Inv(sites, pristine, w)
    requires |envs| == |hooks| && AllBelow(hooks, |sites|)
    ensures var (v, ok) := RestoreAllFrom(sites, w, hooks, envs, status);
            && Inv(sites, pristine, v)
            && (ok ==> status)
            && (forall i :: 0 <= i < |sites| && v.hooked[i] ==> w.hooked[i])
            && (ok ==> forall k :: 0 <= k < |hooks| ==> !v.hooked[hooks[k]])
            && (status && (forall e <- envs :: e.Writes()) ==> ok)
    decreases |hooks|
  {
    if hooks != [] {
      if status {
        if w.hooked[hooks[0]] && envs[0].Writes() {
          UnpatchedKeepsInv(sites, pristine, w, hooks[0]);
        }
        var (v, ok) := Restored(sites, w, hooks[0], envs[0]);
        RestoreAllKeeps(sites, pristine, v, hooks[1..], envs[1..], ok);
      } else {
        RestoreAllKeeps(sites, pristine, w, hooks[1..], envs[1..], false);
      }
    }
  }

  /** Restoring all reports success only if memory is pristine again, however often a stub registered. */
  lemma RestoreAllSucceeds(sites: seq<Site>, pristine: seq<byte>, w: World, envs: seq<Env>)
    requires Disjoint(sites) && Inv(sites, pristine, w) && |envs| == |w.registered|
    ensures var (v, ok) := RestoreAllFrom(sites, w, w.registered, envs, true);
            && WellFormed(sites, v)
            && (ok ==> v.mem == pristine && forall i :: 0 <= i < |sites| ==> !v.hooked[i])
            && ((forall e <- envs :: e.Writes()) ==> ok)
  {
    RestoreAllKeeps(sites, pristine, w, w.registered, envs, true);
    var (v, ok) := RestoreAllFrom(sites, w, w.registered, envs, true);
    if ok {
      assert forall a :: 0 <= a < |pristine| ==> !Covered(sites, v, a);
    }
  }

  // ---- Stubs the manager mishandles: never hooked, or sharing a window ----

  /** None of these uses, at any depth, names stub `i`. */
  predicate Avoids(op: Op, i: nat)
    decreases op, 1
  {
    op.i != i && (op.Invoke? ==> AvoidsAll(op.body, i))
  }

  predicate AvoidsAll(ops: seq<Op>, i: nat)
    decreases ops, 0
  {
    ops == [] || (Avoids(ops[0], i) && AvoidsAll(ops[1..], i))
  }

  /** Stub `i`, its saved bytes and its code are the same in both worlds. */
  ghost predicate SameStub(sites: seq<Site>, w: World, v: World, i: nat)
    requires WellFormed(sites, w) && WellFormed(sites, v) && i < |sites|
  {
    v.hooked[i] == w.hooked[i] && v.original[i] == w.original[i] && Window(sites, v.mem, i) == Window(sites, w.mem, i)
  }

  lemma PatchedKeepsOthers(sites: seq<Site>, w: World, j: nat, i: nat)
    requires Disjoint(sites) && WellFormed(sites, w) && i < |sites| && j < |sites| && i != j
    ensures Window(sites, Patched(sites, w, j).mem, i) == Window(sites, w.mem, i)
  {
    assert Apart(sites[i], sites[j]);
  }

  /** Uses of other stubs, functions nested to any depth and lawful or not, leave a stub as it is. */
  lemma {:induction false} AvoidedStaysSame(sites: seq<Site>, w: World, op: Op, i: nat)
    requires Disjoint(sites) && WellFormed(sites, w) && i < |sites| && Indexed(op, |sites|) && Avoids(op, i)
    ensures SameStub(sites, w, Exec(sites, w, op), i)
    decreases op, 1
  {
    hide Disjoint;
    hide Write;
    hide Jump;
    var j := op.i;
    UnpatchedKeepsOthers(sites, w, j, i);
    match op
    case Make(_, _) =>
      PatchedKeepsOthers(sites, w.(original := w.original[j := Window(sites, w.mem, j)]), j, i);
    case Restore(_, _) =>
    case Invoke(_, before, after, hasFn, body) =>
      match Lifted(sites, w, j, before, hasFn) {
        case None =>
        case Some(v) =>
          AllAvoidedStaysSame(sites, v, body, i);
          PatchedKeepsOthers(sites, ExecAll(sites, v, body), j, i);
      }
  }

  lemma {:induction false} AllAvoidedStaysSame(sites: seq<Site>, w: World, ops: seq<Op>, i: nat)
    requires Disjoint(sites) && WellFormed(sites, w) && i < |sites| && IndexedAll(ops, |sites|) && AvoidsAll(ops, i)
    ensures SameStub(sites, w, ExecAll(sites, w, ops), i)
    decreases ops, 0
  {
    if ops != [] {
      AvoidedStaysSame(sites, w, ops[0], i);
      AllAvoidedStaysSame(sites, Exec(sites, w, ops[0]), ops[1..], i);
    }
  }

  /** Invoke the stub, then restore it. */
  function InvokedAndRestored(sites: seq<Site>, w: World, op: Op, last: Env): World
    requires WellFormed(sites, w) && Indexed(op, |sites|)
  {
    Restored(sites, Exec(sites, w, op), op.i, last).0
  }

  /**
   * Why Invoke needs a stub hooked before. Whatever function it runs on other stubs and whatever the
   * system answers: invoking a stub that is not hooked, then restoring it, gives its code back exactly
   * if the function was not run, or the patch was refused, or the saved bytes - the jump, if they
   * cannot be written back - already were the bytes in place.
   */
  lemma UnsavedInvokeIff(sites: seq<Site>, w: World, op: Op, last: Env)
    requires Disjoint(sites) && WellFormed(sites, w) && Indexed(op, |sites|)
    requires op.Invoke? && !w.hooked[op.i] && AvoidsAll(op.body, op.i)
    ensures var i, mem := op.i, InvokedAndRestored(sites, w, op, last).mem;
            && |mem| == |w.mem|
            && (Window(sites, mem, i) == Window(sites, w.mem, i) <==>
                  || !op.before.moduleFound || !op.hasFn || !op.after.Writes()
                  || (if last.Writes() then w.original[i] == Window(sites, w.mem, i)
                      else Jump(sites[i]) == Window(sites, w.mem, i)[..PATCH]))
  {
    var i := op.i;
    var u := ExecAll(sites, w, op.body);
    AllAvoidedStaysSame(sites, w, op.body, i);
    ExecKeepsSize(sites, w, op);
    var p := Patched(sites, u, i);
    PatchShows(sites, u, i);
    assert Window(sites, Unpatched(sites, p, i).mem, i) == w.original[i];
  }

  lemma PatchShows(sites: seq<Site>, w: World, i: nat)
    requires WellFormed(sites, w) && i < |sites|
    ensures Window(sites, Patched(sites, w, i).mem, i) == Jump(sites[i]) + Window(sites, w.mem, i)[PATCH..]
    ensures Window(sites, Patched(sites, w, i).mem, i) == Window(sites, w.mem, i)
       <==> Jump(sites[i]) == Window(sites, w.mem, i)[..PATCH]
  {
    var before, after := Window(sites, w.mem, i), Window(sites, Patched(sites, w, i).mem, i);
    assert after == Jump(sites[i]) + before[PATCH..];
    assert before == before[..PATCH] + before[PATCH..];
    assert after[..PATCH] == Jump(sites[i]);
  }

  lemma {:induction false} ExecKeepsSize(sites: seq<Site>, w: World, op: Op)
    requires WellFormed(sites, w) && Indexed(op, |sites|)
    ensures |Exec(sites, w, op).mem| == |w.mem|
    decreases op, 1
  {
    if op.Invoke? {
      var lifted := Lifted(sites, w, op.i, op.before, op.hasFn);
      if lifted.Some? {
        ExecAllKeepsSize(sites, lifted.value, op.body);
      }
    }
  }

  lemma {:induction false} ExecAllKeepsSize(sites: seq<Site>, w: World, ops: seq<Op>)
    requires WellFormed(sites, w) && IndexedAll(ops, |sites|)
    ensures |ExecAll(sites, w, ops).mem| == |w.mem|
    decreases ops, 0
  {
    if ops != [] {
      ExecKeepsSize(sites, w, ops[0]);
      ExecAllKeepsSize(sites, Exec(sites, w, ops[0]), ops[1..]);
    }
  }

  const NEVER_SAVED: Saved := [0, 0, 0, 0, 0, 0, 0, 0, 0, 0, 0, 0]

  /** On a stub never hooked before, whose saved bytes are still zero, this wipes its code. */
  lemma FirstInvokeWipes(sites: seq<Site>, w: World, op: Op, last: Env)
    requires Disjoint(sites) && WellFormed(sites, w) && Indexed(op, |sites|)
    requires op.Invoke? && !w.hooked[op.i] && AvoidsAll(op.body, op.i)
    requires w.original[op.i] == NEVER_SAVED
    requires op.before.moduleFound && op.hasFn && op.after.Writes() && last.Writes()
    ensures |InvokedAndRestored(sites, w, op, last).mem| == |w.mem|
    ensures Window(sites, InvokedAndRestored(sites, w, op, last).mem, op.i) == NEVER_SAVED
  {
    UnsavedInvokeIff(sites, w, op, last);
    AllAvoidedStaysSame(sites, w, op.body, op.i);
    var p := Patched(sites, ExecAll(sites, w, op.body), op.i);
    assert Window(sites, Unpatched(sites, p, op.i).mem, op.i) == p.original[op.i];
  }

  // ---- What each answer of the system makes of a stub ----

  /** The stub's first five bytes jump to its hook, and the rest of its window is that of `mem`. */
  ghost predicate JumpsToHook(sites: seq<Site>, w: World, i: nat, mem: seq<byte>)
    requires WellFormed(sites, w) && i < |sites| && |mem| == |w.mem|
  {
    var s, now := sites[i], Window(sites, w.mem, i);
    now[0] == 0xE9 && Destination(s.target, now[..PATCH]) == s.hook && now[PATCH..] == Window(sites, mem, i)[PATCH..]
  }

  lemma PatchedJumps(sites: seq<Site>, w: World, i: nat)
    requires WellFormed(sites, w) && i < |sites|
    ensures JumpsToHook(sites, Patched(sites, w, i), i, w.mem)
  {
    JumpLands(sites[i]);
    PatchShows(sites, w, i);
    var now := Window(sites, Patched(sites, w, i).mem, i);
    assert now[..PATCH] == Jump(sites[i]) && now[PATCH..] == Window(sites, w.mem, i)[PATCH..];
  }

  /** Hooking succeeds exactly if the stub is hooked or everything is granted; then its code jumps to the hook. */
  lemma MakeAnswers(sites: seq<Site>, w: World, i: nat, env: Env)
    requires WellFormed(sites, w) && i < |sites|
    ensures var (v, ok) := Made(sites, w, i, env);
            && (ok <==> w.hooked[i] || (env.moduleFound && env.protectOk && env.writeOk))
            && (w.hooked[i] ==> v == w)
            && (!ok ==> v.mem == w.mem && v.hooked == w.hooked && v.registered == w.registered)
            && (ok && !w.hooked[i] ==>
                  && |v.mem| == |w.mem| && JumpsToHook(sites, v, i, w.mem)
                  && v.original[i] == Window(sites, w.mem, i)
                  && v.hooked == w.hooked[i := true] && v.registered == w.registered + [i])
  {
    if !w.hooked[i] && env.moduleFound && env.Writes() {
      PatchedJumps(sites, w.(original := w.original[i := Window(sites, w.mem, i)]), i);
    }
  }

  /** Restoring succeeds exactly if the stub is not hooked or both calls do; then the saved bytes are back. */
  lemma RestoreAnswers(sites: seq<Site>, w: World, i: nat, env: Env)
    requires WellFormed(sites, w) && i < |sites|
    ensures var (v, ok) := Restored(sites, w, i, env);
            && (ok <==> !w.hooked[i] || (env.protectOk && env.writeOk))
            && (!ok || !w.hooked[i] ==> v == w)
            && (ok && w.hooked[i] ==>
                  && |v.mem| == |w.mem| && Window(sites, v.mem, i) == w.original[i]
                  && v.hooked == w.hooked[i := false] && v.registered == w.registered && v.original == w.original)
  {
    if w.hooked[i] && env.Writes() {
      var t := sites[i].target;
      assert Write(w.mem, t, w.original[i])[t..t + WINDOW] == w.original[i];
    }
  }

  /**
   * Invoking a hooked stub: its function runs with the stub unhooked and its pristine code in place.
   * Afterwards, if the patch is granted, the stub is hooked again and jumps to its hook as before;
   * if not, it stays unhooked and pristine. The function may use other stubs in any way.
   */
  lemma InvokeHooksAgain(sites: seq<Site>, pristine: seq<byte>, w: World, op: Op)
    requires Disjoint(sites) && Inv(sites, pristine, w) && Indexed(op, |sites|)
    requires op.Invoke? && w.hooked[op.i] && AvoidsAll(op.body, op.i)
    requires op.before.moduleFound && op.hasFn && op.before.protectOk && op.before.writeOk
    ensures var i := op.i;
            && (var u := Lifted(sites, w, i, op.before, op.hasFn);
                && u.Some? && WellFormed(sites, u.value) && !u.value.hooked[i]
                && Window(sites, u.value.mem, i) == Window(sites, pristine, i))
            && var v, granted := Exec(sites, w, op), op.after.protectOk && op.after.writeOk;
               && |v.mem| == |pristine| && (v.hooked[i] <==> granted)
               && (granted ==> JumpsToHook(sites, v, i, pristine) && Window(sites, v.mem, i) == Window(sites, w.mem, i))
               && (!granted ==> Window(sites, v.mem, i) == Window(sites, pristine, i))
               && (granted && op.body == [] ==> v == w)
  {
    hide Inv;
    var i := op.i;
    InvFacts(sites, pristine, w, i);
    UnpatchedKeepsInv(sites, pristine, w, i);
    var u := Unpatched(sites, w, i);
    UnhookedIsPristine(sites, pristine, u, i);
    AllAvoidedStaysSame(sites, u, op.body, i);
    ExecAllKeepsSize(sites, u, op.body);
    var r := ExecAll(sites, u, op.body);
    PatchedJumps(sites, r, i);
    PatchShows(sites, r, i);
    RestAsBefore(sites, pristine, w, i);
  }

  lemma InvFacts(sites: seq<Site>, pristine: seq<byte>, w: World, i: nat)
    requires Inv(sites, pristine, w) && i < |sites| && w.hooked[i]
    ensures WellFormed(sites, w) && |w.mem| == |pristine| && w.original[i] == Window(sites, pristine, i)
    ensures w.mem[sites[i].target..sites[i].target + PATCH] == Jump(sites[i])
  {
  }

  /** A hooked stub's window is its jump and then pristine bytes; patching what was restored gives the world back. */
  lemma RestAsBefore(sites: seq<Site>, pristine: seq<byte>, w: World, i: nat)
    requires Disjoint(sites) && Inv(sites, pristine, w) && i < |sites| && w.hooked[i]
    ensures Window(sites, w.mem, i) == Jump(sites[i]) + Window(sites, pristine, i)[PATCH..]
    ensures Patched(sites, Unpatched(sites, w, i), i) == w
  {
    var t := sites[i].target;
    forall a | t + PATCH <= a < t + WINDOW ensures w.mem[a] == pristine[a] {
      forall k | 0 <= k < |sites| && w.hooked[k]
        ensures !(sites[k].target <= a < sites[k].target + PATCH)
      {
        assert k != i ==> Apart(sites[k], sites[i]);
      }
      assert !Covered(sites, w, a);
    }
    var now := Window(sites, w.mem, i);
    assert now[..PATCH] == w.mem[t..t + PATCH] && now == now[..PATCH] + now[PATCH..];
    assert now[PATCH..] == Window(sites, pristine, i)[PATCH..];
    var v := Patched(sites, Unpatched(sites, w, i), i);
    assert w.original[i] == Window(sites, pristine, i);
    forall a | 0 <= a < |w.mem| ensures v.mem[a] == w.mem[a] {
      if t <= a < t + PATCH {
        assert v.mem[a] == Jump(sites[i])[a - t] == w.mem[t..t + PATCH][a - t];
      } else if t <= a < t + WINDOW {
        assert v.mem[a] == w.original[i][a - t] == pristine[a];
      }
    }
    assert v.mem == w.mem && v.hooked == w.hooked;
  }

  /** Invoke does nothing at all without a module or a function, or when a hook cannot be lifted. */
  lemma InvokeRefused(sites: seq<Site>, w: World, op: Op)
    requires WellFormed(sites, w) && Indexed(op, |sites|) && op.Invoke?
    requires || !op.before.moduleFound || !op.hasFn
             || (w.hooked[op.i] && (!op.before.protectOk || !op.before.writeOk))
    ensures Exec(sites, w, op) == w
  {
  }

  /** On a stub that is not hooked it runs the function as things are, and hooks it if that is granted. */
  lemma InvokeUnhooked(sites: seq<Site>, w: World, op: Op)
    requires Disjoint(sites) && WellFormed(sites, w) && Indexed(op, |sites|) && op.Invoke? && !w.hooked[op.i]
    requires AvoidsAll(op.body, op.i) && op.before.moduleFound && op.hasFn
    ensures var i, u, v := op.i, ExecAll(sites, w, op.body), Exec(sites, w, op);
            if op.after.protectOk && op.after.writeOk
            then |v.mem| == |u.mem| && v.hooked[i] && JumpsToHook(sites, v, i, u.mem)
            else v == u
  {
    AllAvoidedStaysSame(sites, w, op.body, op.i);
    PatchedJumps(sites, ExecAll(sites, w, op.body), op.i);
  }

  /** Loaded where it was linked, an image has its stubs at their linked addresses; moved, they move along. */
  lemma RelocatedMovesAlong(addr: uint32, base: uint32, shift: nat)
    requires addr + shift < TWO32 && base + shift < TWO32
    ensures Relocated(addr, 0x40_0000) == addr
    ensures Relocated(addr, base + shift) == Relocated(addr + shift, base)
  {
  }

  // ---- Overlapping windows ----

  /** Both stubs hooked, first `i`, then `j`, every answer favourable. */
  function BothMade(sites: seq<Site>, w: World, i: nat, j: nat, ok: Env): (v: World)
    requires WellFormed(sites, w) && i < |sites| && j < |sites|
    ensures WellFormed(sites, v)
  {
    Made(sites, Made(sites, w, i, ok).0, j, ok).0
  }

  /** Neither stub is hooked or was registered before; other stubs may be and may have been. */
  ghost predicate BothNew(sites: seq<Site>, w: World, i: nat, j: nat) {
    && WellFormed(sites, w) && AllBelow(w.registered, |sites|)
    && i < |sites| && j < |sites| && i != j
    && !w.hooked[i] && !w.hooked[j] && i !in w.registered && j !in w.registered
  }

  lemma BothMadeState(sites: seq<Site>, w: World, i: nat, j: nat, ok: Env)
    requires BothNew(sites, w, i, j) && ok.moduleFound && ok.Writes()
    ensures var ti, tj, v := sites[i].target, sites[j].target, BothMade(sites, w, i, j, ok);
            var first := Write(w.mem, ti, Jump(sites[i]));
            && v.mem == Write(first, tj, Jump(sites[j]))
            && v.original[i] == w.mem[ti..ti + WINDOW] && v.original[j] == first[tj..tj + WINDOW]
            && v.hooked[i] && v.hooked[j] && v.registered == w.registered + [i, j]
            && AllBelow(v.registered, |sites|)
  {
    hide Write;
    hide Jump;
  }

  ghost predicate AllWrite(envs: seq<Env>) {
    forall e <- envs :: e.Writes()
  }

  /** Restoring stubs goes through when all writes do, and leaves the state of all other stubs. */
  lemma {:induction false} RestoringSpares(sites: seq<Site>, w: World, hooks: seq<nat>, envs: seq<Env>, i: nat)
    requires WellFormed(sites, w) && |envs| == |hooks| && AllBelow(hooks, |sites|) && AllWrite(envs)
    requires i < |sites| && i !in hooks
    ensures var (v, ok) := RestoreAllFrom(sites, w, hooks, envs, true);
            && ok && WellFormed(sites, v) && |v.mem| == |w.mem|
            && v.hooked[i] == w.hooked[i] && v.original[i] == w.original[i]
    decreases |hooks|
  {
    hide Write;
    if hooks != [] {
      var (v, ok) := Restored(sites, w, hooks[0], envs[0]);
      assert envs[0].Writes();
      RestoringSpares(sites, v, hooks[1..], envs[1..], i);
    }
  }

  lemma {:induction false} RestoringInTwo(sites: seq<Site>, w: World, a: seq<nat>, b: seq<nat>,
                                          ea: seq<Env>, eb: seq<Env>, status: bool)
    requires WellFormed(sites, w) && |ea| == |a| && |eb| == |b| && AllBelow(a, |sites|) && AllBelow(b, |sites|)
    ensures var (v, ok) := RestoreAllFrom(sites, w, a, ea, status);
            && AllBelow(a + b, |sites|) && WellFormed(sites, v)
            && RestoreAllFrom(sites, w, a + b, ea + eb, status) == RestoreAllFrom(sites, v, b, eb, ok)
    decreases |a|
  {
    if a == [] {
      assert a + b == b && ea + eb == eb;
    } else {
      assert (a + b)[1..] == a[1..] + b && (ea + eb)[1..] == ea[1..] + eb;
      var (v, ok) := if status then Restored(sites, w, a[0], ea[0]) else (w, false);
      RestoringInTwo(sites, v, a[1..], b, ea[1..], eb, ok);
    }
  }

  lemma RestoreTwo(sites: seq<Site>, v: World, i: nat, j: nat, envs: seq<Env>)
    requires WellFormed(sites, v) && i < |sites| && j < |sites| && i != j
    requires v.hooked[i] && v.hooked[j] && |envs| == 2 && AllWrite(envs)
    ensures var (u, status) := RestoreAllFrom(sites, v, [i, j], envs, true);
            status && u.mem == Write(Write(v.mem, sites[i].target, v.original[i]), sites[j].target, v.original[j])
  {
    hide Write;
    var u := Unpatched(sites, v, i);
    assert envs == [envs[0], envs[1]] && envs[0].Writes() && envs[1].Writes();
    assert [i, j][1..] == [j] && [j][1..] == [] && envs[1..] == [envs[1]] && envs[1..][1..] == [];
    assert RestoreAllFrom(sites, u, [j], [envs[1]], true)
        == RestoreAllFrom(sites, Unpatched(sites, u, j), [], [], true);
  }

  /** Everything registered is restored, these two last: what the others leave does not matter. */
  lemma RestoreTwoLast(sites: seq<Site>, v: World, hooks: seq<nat>, i: nat, j: nat, envs: seq<Env>)
    returns (mem: seq<byte>)
    requires WellFormed(sites, v) && AllBelow(hooks + [i, j], |sites|) && AllBelow(hooks, |sites|)
    requires i < |sites| && j < |sites| && i != j && i !in hooks && j !in hooks && v.hooked[i] && v.hooked[j]
    requires |envs| == |hooks| + 2 && AllWrite(envs)
    ensures var (u, status) := RestoreAllFrom(sites, v, hooks + [i, j], envs, true);
            && status && |mem| == |v.mem|
            && u.mem == Write(Write(mem, sites[i].target, v.original[i]), sites[j].target, v.original[j])
    ensures hooks == [] ==> mem == v.mem
  {
    hide Write;
    hide Restored;
    var front, back := envs[..|hooks|], envs[|hooks|..];
    assert envs == front + back && AllWrite(front) && AllWrite(back);
    RestoringInTwo(sites, v, hooks, [i, j], front, back, true);
    RestoringSpares(sites, v, hooks, front, i);
    RestoringSpares(sites, v, hooks, front, j);
    var u := RestoreAllFrom(sites, v, hooks, front, true).0;
    RestoreTwo(sites, u, i, j, back);
    mem := u.mem;
  }

  /**
   * A stub hooked and then another whose window reaches over its first byte, whatever else is hooked or
   * registered: restoring everything in the order of registration reports success when all writes go
   * through, and leaves the first stub's jump there.
   */
  lemma OverlapStaysPatched(sites: seq<Site>, w: World, i: nat, j: nat, ok: Env, envs: seq<Env>)
    requires BothNew(sites, w, i, j) && sites[j].target <= sites[i].target < sites[j].target + WINDOW
    requires ok.moduleFound && ok.Writes()
    requires |envs| == |BothMade(sites, w, i, j, ok).registered| && AllWrite(envs)
    ensures var v := BothMade(sites, w, i, j, ok);
            && AllBelow(v.registered, |sites|)
            && var (kept, good) := RestoreAllFrom(sites, v, v.registered, envs, true);
               good && |kept.mem| == |w.mem| && kept.mem[sites[i].target] == JMP
  {
    hide RestoreAllFrom;
    hide BothMade;
    var ti, tj, v := sites[i].target, sites[j].target, BothMade(sites, w, i, j, ok);
    BothMadeState(sites, w, i, j, ok);
    var mem := RestoreTwoLast(sites, v, w.registered, i, j, envs);
    var first := Write(w.mem, ti, Jump(sites[i]));
    assert v.original[j][ti - tj] == first[ti] == Jump(sites[i])[0] == JMP;
  }

  /** Restoring that reports success gives the memory back, after every legal run from unhooked stubs. */
  ghost predicate SuccessMeansPristine(sites: seq<Site>, w: World)
    requires WellFormed(sites, w)
  {
    forall ops: seq<Op>, envs: seq<Env> ::
      IndexedAll(ops, |sites|) && LegalAll(sites, w, ops) ==> GivesBack(sites, w, ops, envs)
  }

  ghost predicate GivesBack(sites: seq<Site>, w: World, ops: seq<Op>, envs: seq<Env>)
    requires WellFormed(sites, w) && IndexedAll(ops, |sites|)
  {
    var v := ExecAll(sites, w, ops);
    AllBelow(v.registered, |sites|) && |envs| == |v.registered| ==>
      var (u, ok) := RestoreAllFrom(sites, v, v.registered, envs, true);
      ok ==> u.mem == w.mem
  }

  /**
   * For stubs whose code does not start with a jump already, restoring can be trusted exactly if no two
   * windows overlap.
   */
  lemma TrustedIffDisjoint(sites: seq<Site>, w: World)
    requires WellFormed(sites, w) && w.registered == []
    requires forall i :: 0 <= i < |sites| ==> !w.hooked[i] && w.mem[sites[i].target] != JMP
    ensures SuccessMeansPristine(sites, w) <==> Disjoint(sites)
  {
    if Disjoint(sites) {
      forall ops: seq<Op>, envs: seq<Env> | IndexedAll(ops, |sites|) && LegalAll(sites, w, ops)
        ensures GivesBack(sites, w, ops, envs)
      {
        DisjointGivesBack(sites, w, ops, envs);
      }
    } else {
      var a, b :| 0 <= a < |sites| && 0 <= b < |sites| && a != b && !Apart(sites[a], sites[b]);
      if sites[b].target <= sites[a].target {
        OverlapDoesNot(sites, w, a, b);
      } else {
        OverlapDoesNot(sites, w, b, a);
      }
    }
  }

  lemma DisjointGivesBack(sites: seq<Site>, w: World, ops: seq<Op>, envs: seq<Env>)
    requires WellFormed(sites, w) && w.registered == [] && Disjoint(sites)
    requires forall i :: 0 <= i < |sites| ==> !w.hooked[i]
    requires IndexedAll(ops, |sites|) && LegalAll(sites, w, ops)
    ensures GivesBack(sites, w, ops, envs)
  {
    hide RestoreAllFrom;
    RunKeepsInv(sites, w.mem, w, ops);
    var v := ExecAll(sites, w, ops);
    if |envs| == |v.registered| {
      RestoreAllSucceeds(sites, w.mem, v, envs);
    }
  }

  lemma OverlapDoesNot(sites: seq<Site>, w: World, i: nat, j: nat)
    requires WellFormed(sites, w) && w.registered == []
    requires i < |sites| && j < |sites| && i != j && !w.hooked[i] && !w.hooked[j]
    requires sites[j].target <= sites[i].target < sites[j].target + WINDOW && w.mem[sites[i].target] != JMP
    ensures !SuccessMeansPristine(sites, w)
  {
    hide RestoreAllFrom;
    hide Made;
    var ok := Env(true, true, true);
    var ops, envs := [Make(i, ok), Make(j, ok)], [ok, ok];
    TwoMakes(sites, w, i, j, ok);
    BothMadeState(sites, w, i, j, ok);
    OverlapStaysPatched(sites, w, i, j, ok, envs);
    assert !GivesBack(sites, w, ops, envs);
  }

  lemma TwoMakes(sites: seq<Site>, w: World, i: nat, j: nat, ok: Env)
    requires WellFormed(sites, w) && i < |sites| && j < |sites|
    ensures var ops := [Make(i, ok), Make(j, ok)];
            && IndexedAll(ops, |sites|) && LegalAll(sites, w, ops)
            && ExecAll(sites, w, ops) == BothMade(sites, w, i, j, ok)
  {
    hide Made;
    var ops := [Make(i, ok), Make(j, ok)];
    var first := Exec(sites, w, ops[0]);
    assert ops[1..] == [ops[1]];
    OneOp(sites, first, ops[1]);
    assert IndexedAll(ops, |sites|);
  }

  lemma OneOp(sites: seq<Site>, w: World, op: Op)
    requires WellFormed(sites, w) && Indexed(op, |sites|) && op.Make?
    ensures IndexedAll([op], |sites|) && LegalAll(sites, w, [op]) && ExecAll(sites, w, [op]) == Exec(sites, w, op)
  {
    hide Made;
    assert [op][1..] == [];
    assert IndexedAll([], |sites|);
    var v := Exec(sites, w, op);
    assert LegalAll(sites, v, []) && ExecAll(sites, v, []) == v;
  }

  /**
   * Two stubs on one window, as the installed list has them, whatever else is registered: restoring them
   * in the order of registration gives their code back exactly if it was the first one's jump already;
   * the other way round it always comes back. Alone in the list, they decide all of the memory.
   */
  lemma SharedWindowStaysPatched(sites: seq<Site>, w: World, i: nat, j: nat, ok: Env, envs: seq<Env>)
    requires BothNew(sites, w, i, j) && sites[i].target == sites[j].target
    requires ok.moduleFound && ok.Writes()
    requires |envs| == |w.registered| + 2 && AllWrite(envs)
    ensures var v := BothMade(sites, w, i, j, ok);
            && v.registered == w.registered + [i, j] && AllBelow(v.registered, |sites|)
            && AllBelow(w.registered + [j, i], |sites|)
            && var (kept, good) := RestoreAllFrom(sites, v, v.registered, envs, true);
               var (back, fine) := RestoreAllFrom(sites, v, w.registered + [j, i], envs, true);
               && good && fine && |kept.mem| == |back.mem| == |w.mem|
               && Window(sites, kept.mem, i) == Jump(sites[i]) + Window(sites, w.mem, i)[PATCH..]
               && (Window(sites, kept.mem, i) == Window(sites, w.mem, i) <==>
                     Jump(sites[i]) == Window(sites, w.mem, i)[..PATCH])
               && Window(sites, back.mem, i) == Window(sites, w.mem, i)
               && (w.registered == [] ==>
                     && kept.mem == Write(w.mem, sites[i].target, Jump(sites[i]))
                     && (kept.mem == w.mem <==> Jump(sites[i]) == Window(sites, w.mem, i)[..PATCH])
                     && back.mem == w.mem)
  {
    hide Write;
    hide Jump;
    hide RestoreAllFrom;
    hide BothMade;
    var t, a, b := sites[i].target, Jump(sites[i]), Jump(sites[j]);
    var v := BothMade(sites, w, i, j, ok);
    BothMadeState(sites, w, i, j, ok);
    var first := Write(w.mem, t, a);
    var m := RestoreTwoLast(sites, v, w.registered, i, j, envs);
    var n := RestoreTwoLast(sites, v, w.registered, j, i, envs);
    WriteOver(m, t, v.original[i], v.original[j]);
    WriteOver(n, t, v.original[j], v.original[i]);
    WriteReads(m, t, v.original[j]);
    WriteReads(n, t, v.original[i]);
    PatchShows(sites, w, i);
    TwoPatches(w.mem, t, a, b);
    WriteSame(w.mem, t, a);
    assert w.mem[t..t + PATCH] == Window(sites, w.mem, i)[..PATCH];
  }

  lemma WriteReads(mem: seq<byte>, at: nat, bytes: seq<byte>)
    requires at + |bytes| <= |mem|
    ensures Write(mem, at, bytes)[at..at + |bytes|] == bytes
  {
  }

  /** Two patches in one place: writing both saved windows back in the same order undoes only the second. */
  lemma TwoPatches(mem: seq<byte>, t: nat, a: seq<byte>, b: seq<byte>)
    requires t + WINDOW <= |mem| && |a| == |b| == PATCH
    ensures var first := Write(mem, t, a);
            var both := Write(first, t, b);
            && Write(Write(both, t, mem[t..t + WINDOW]), t, first[t..t + WINDOW]) == first
            && Write(Write(both, t, first[t..t + WINDOW]), t, mem[t..t + WINDOW]) == mem
  {
    hide Write;
    var first := Write(mem, t, a);
    var both := Write(first, t, b);
    WriteOver(both, t, mem[t..t + WINDOW], first[t..t + WINDOW]);
    WriteOver(both, t, first[t..t + WINDOW], mem[t..t + WINDOW]);
    WriteBack(first, t, b);
    WriteOver(mem, t, a, b);
    WriteBack(mem, t, b);
  }

  lemma WriteOver(mem: seq<byte>, at: nat, a: seq<byte>, b: seq<byte>)
    requires at + |b| <= |mem| && |a| == |b|
    ensures Write(Write(mem, at, a), at, b) == Write(mem, at, b)
  {
  }

  lemma WriteBack(mem: seq<byte>, at: nat, a: seq<byte>)
    requires at + WINDOW <= |mem| && |a| <= WINDOW
    ensures Write(Write(mem, at, a), at, mem[at..at + WINDOW]) == mem
  {
  }

  lemma WriteSame(mem: seq<byte>, at: nat, a: seq<byte>)
    requires at + |a| <= |mem|
    ensures Write(mem, at, a) == mem <==> a == mem[at..at + |a|]
  {
    if Write(mem, at, a) == mem {
      assert forall k :: 0 <= k < |a| ==> Write(mem, at, a)[at + k] == a[k];
    }
  }

  // ---- The manager itself ----

  class Manager {
    const sites: seq<Site>
    const mem: array<byte>
    var original: seq<Saved>
    var hooked: seq<bool>
    var registered: seq<nat>

    ghost function State(): World
      reads this, mem
    {
      World(mem[..], original, hooked, registered)
    }

    ghost predicate Valid()
      reads this, mem
    {
      WellFormed(sites, State())
    }

    /** Stubs given by their linked addresses; the image was loaded at `base`. Nothing is hooked. */
    constructor (memory: array<byte>, base: uint32, stubs: seq<(uint32, uint32)>)
      requires forall s <- stubs :: Relocated(s.0, base) + WINDOW <= memory.Length
      ensures Valid() && mem == memory && |sites| == |stubs|
      ensures forall i :: 0 <= i < |stubs| ==> sites[i] == Site(Relocated(stubs[i].0, base), stubs[i].1)
      ensures registered == [] && forall i :: 0 <= i < |sites| ==> !hooked[i] && original[i] == NEVER_SAVED
    {
      mem := memory;
      sites := seq(|stubs|, i requires 0 <= i < |stubs| => Site(Relocated(stubs[i].0, base), stubs[i].1));
      original := seq(|stubs|, i => NEVER_SAVED);
      hooked := seq(|stubs|, i => false);
      registered := [];
    }

    method WriteMemory(at: nat, bytes: seq<byte>, ok: bool) returns (done: bool)
      requires at + |bytes| <= mem.Length
      modifies mem
      ensures done == ok
      ensures mem[..] == if ok then Write(old(mem[..]), at, bytes) else old(mem[..])
    {
      if !ok {
        return false;
      }
      var i := 0;
      while i < |bytes|
        invariant 0 <= i <= |bytes|
        invariant mem[..] == Write(old(mem[..]), at, bytes[..i])
      {
        mem[at + i] := bytes[i];
        i := i + 1;
      }
      assert bytes[..i] == bytes;
      return true;
    }

    method MakeHook(i: nat, env: Env) returns (ok: bool)
      requires Valid() && i < |sites|
      modifies this, mem
      ensures Valid() && (State(), ok) == Made(sites, old(State()), i, env)
    {
      if hooked[i] {
        return true;
      }
      if !env.moduleFound {
        return false;
      }
      var target := sites[i].target;
      original := original[i := mem[target..target + WINDOW]];
      if !env.protectOk {
        return false;
      }
      var written := WriteMemory(target, Jump(sites[i]), env.writeOk);
      if !written {
        return false;
      }
      hooked := hooked[i := true];
      registered := registered + [i];
      return true;
    }

    method RestoreHook(i: nat, env: Env) returns (ok: bool)
      requires Valid() && i < |sites|
      modifies this, mem
      ensures Valid() && (State(), ok) == Restored(sites, old(State()), i, env)
    {
      if !hooked[i] {
        return true;
      }
      if !env.protectOk {
        return false;
      }
      var written := WriteMemory(sites[i].target, original[i], env.writeOk);
      if !written {
        return false;
      }
      hooked := hooked[i := false];
      return true;
    }

    /** Restore, run the function, patch again; the function may use the manager in turn. */
    method InvokeHooked(op: Op)
      requires Valid() && op.Invoke? && Indexed(op, |sites|)
      modifies this, mem
      ensures Valid() && State() == Exec(sites, old(State()), op)
      decreases op, 1
    {
      var Invoke(i, before, after, hasFn, body) := op;
      if !before.moduleFound || !hasFn {
        return;
      }
      if hooked[i] {
        if !before.protectOk {
          return;
        }
        var written := WriteMemory(sites[i].target, original[i], before.writeOk);
        if !written {
          return;
        }
        hooked := hooked[i := false];
      }
      Run(body);
      if !hooked[i] {
        if !after.protectOk {
          return;
        }
        var written := WriteMemory(sites[i].target, Jump(sites[i]), after.writeOk);
        if !written {
          return;
        }
        hooked := hooked[i := true];
      }
    }

    method Run(ops: seq<Op>)
      requires Valid() && IndexedAll(ops, |sites|)
      modifies this, mem
      ensures Valid() && State() == ExecAll(sites, old(State()), ops)
      decreases ops, 0
    {
      if ops == [] {
        return;
      }
      match ops[0] {
        case Make(i, env) =>
          var ok := MakeHook(i, env);
        case Restore(i, env) =>
          var ok := RestoreHook(i, env);
        case Invoke(_, _, _, _, _) =>
          InvokeHooked(ops[0]);
      }
      Run(ops[1..]);
    }

    method RestoreAllHooks(envs: seq<Env>) returns (status: bool)
      requires Valid() && |envs| == |registered| && AllBelow(registered, |sites|)
      modifies this, mem
      ensures Valid()
      ensures (State(), status) == RestoreAllFrom(sites, old(State()), old(registered), envs, true)
    {
      status := true;
      var k := 0;
      while k < |registered|
        invariant 0 <= k <= |registered| && Valid() && registered == old(registered)
        invariant RestoreAllFrom(sites, State(), registered[k..], envs[k..], status)
               == RestoreAllFrom(sites, old(State()), registered, envs, true)
      {
        assert registered[k..][1..] == registered[k + 1..] && envs[k..][1..] == envs[k + 1..];
        if status {
          status := RestoreHook(registered[k], envs[k]);
        }
        k := k + 1;
      }
    }

    /**
     * From loading to unloading: whatever was hooked, restored and invoked in between and whatever
     * failed, unloading that reports success leaves every byte of memory as it was found.
     */
    method LoadToUnload(ops: seq<Op>, answers: nat -> Env) returns (status: bool)
      requires Valid() && Disjoint(sites) && registered == [] && forall i :: 0 <= i < |sites| ==> !hooked[i]
      requires IndexedAll(ops, |sites|) && LegalAll(sites, State(), ops)
      modifies this, mem
      ensures Valid() && Inv(sites, old(mem[..]), State())
      ensures status ==> mem[..] == old(mem[..]) && forall i :: 0 <= i < |sites| ==> !hooked[i]
      ensures (forall k :: answers(k).Writes()) ==> status
    {
      ghost var w := State();
      RunKeepsInv(sites, w.mem, w, ops);
      Run(ops);
      var n := |registered|;
      var envs := seq(n, k requires 0 <= k < n => answers(k));
      RestoreAllKeeps(sites, w.mem, State(), registered, envs, true);
      RestoreAllSucceeds(sites, w.mem, State(), envs);
      status := RestoreAllHooks(envs);
    }
  }
}
