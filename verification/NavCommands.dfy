/** The bounded command ring between the pipe reader and the main thread. */
module NavCommands {
  import opened Bytes

  const QUEUE_SIZE := 16

  datatype NavCmd = NoCmd | PassShardSelect

  // ---- The queue as a sequence ----

  predicate Accepts(q: seq<NavCmd>, cmd: NavCmd) {
    cmd != NoCmd && |q| < QUEUE_SIZE
  }

  function Offer(q: seq<NavCmd>, cmd: NavCmd): seq<NavCmd> {
    if Accepts(q, cmd) then q + [cmd] else q
  }

  function Rest(q: seq<NavCmd>): seq<NavCmd> {
    if q == [] then [] else q[1..]
  }

  function Front(q: seq<NavCmd>): Option<NavCmd> {
    if q == [] then None else Some(q[0])
  }

  datatype Access = Put(cmd: NavCmd) | Get

  function After(q: seq<NavCmd>, op: Access): seq<NavCmd> {
    if op.Put? then Offer(q, op.cmd) else Rest(q)
  }

  /** What one access adds: a command that found room. */
  function In(q: seq<NavCmd>, op: Access): seq<NavCmd> {
    if op.Put? && Accepts(q, op.cmd) then [op.cmd] else []
  }

  /** What one access hands over: the oldest command. */
  function Out(q: seq<NavCmd>, op: Access): seq<NavCmd> {
    if op.Get? && q != [] then [q[0]] else []
  }

  function AfterAll(q: seq<NavCmd>, ops: seq<Access>): seq<NavCmd>
    decreases |ops|
  {
    if ops == [] then q else AfterAll(After(q, ops[0]), ops[1..])
  }

  function Admitted(q: seq<NavCmd>, ops: seq<Access>): seq<NavCmd>
    decreases |ops|
  {
    if ops == [] then [] else In(q, ops[0]) + Admitted(After(q, ops[0]), ops[1..])
  }

  function Taken(q: seq<NavCmd>, ops: seq<Access>): seq<NavCmd>
    decreases |ops|
  {
    if ops == [] then [] else Out(q, ops[0]) + Taken(After(q, ops[0]), ops[1..])
  }

  /** A command gets to the end of the queue, unless it is the empty one or 16 are waiting. */
  lemma DroppedIff(q: seq<NavCmd>, cmd: NavCmd)
    requires |q| <= 16
    ensures Offer(q, cmd) == q <==> cmd == NoCmd || |q| == 16
    ensures Offer(q, cmd) != q ==> Offer(q, cmd) == q + [cmd]
  {
    assert |q + [cmd]| == |q| + 1;
  }

  /** First in, first out, nothing lost or made up: what went in is what came out plus what is left. */
  lemma {:induction false} FirstInFirstOut(q: seq<NavCmd>, ops: seq<Access>)
    requires |q| <= QUEUE_SIZE
    ensures q + Admitted(q, ops) == Taken(q, ops) + AfterAll(q, ops)
    ensures |AfterAll(q, ops)| <= QUEUE_SIZE
    decreases |ops|
  {
    if ops != [] {
      var next := After(q, ops[0]);
      FirstInFirstOut(next, ops[1..]);
      assert q + In(q, ops[0]) == Out(q, ops[0]) + next;
      Regroup(q, In(q, ops[0]), Admitted(next, ops[1..]));
      Regroup(Out(q, ops[0]), next, Admitted(next, ops[1..]));
      Regroup(Out(q, ops[0]), Taken(next, ops[1..]), AfterAll(next, ops[1..]));
    }
  }

  // ---- The ring ----

  class NavQueue {
    const queue: array<NavCmd>
    var head: nat
    var tail: nat

    ghost predicate Valid()
      reads this
    {
      queue.Length == QUEUE_SIZE && head <= tail <= head + QUEUE_SIZE
    }

    ghost function Contents(): (q: seq<NavCmd>)
      requires Valid()
      reads this, queue
      ensures |q| == tail - head
    {
      seq(tail - head, k requires 0 <= k < tail - head reads this, queue
        requires queue.Length == QUEUE_SIZE => queue[(head + k) % QUEUE_SIZE])
    }

    constructor ()
      ensures Valid() && Contents() == [] && fresh(queue)
    {
      queue := new NavCmd[QUEUE_SIZE](i => NoCmd);
      head, tail := 0, 0;
    }

    method Enqueue(cmd: NavCmd)
      requires Valid()
      modifies this, queue
      ensures Valid() && Contents() == Offer(old(Contents()), cmd)
    {
      if cmd == NoCmd {
        return;
      }
      if tail - head < QUEUE_SIZE {
        queue[tail % QUEUE_SIZE] := cmd;
        tail := tail + 1;
      }
    }

    method HasQueued() returns (has: bool)
      requires Valid()
      ensures has <==> Contents() != []
    {
      has := head < tail;
    }

    method Dequeue() returns (r: Option<NavCmd>)
      requires Valid()
      modifies this
      ensures Valid() && Contents() == Rest(old(Contents())) && r == Front(old(Contents()))
    {
      if head >= tail {
        return None;
      }
      r := Some(queue[head % QUEUE_SIZE]);
      head := head + 1;
    }
  }
}
