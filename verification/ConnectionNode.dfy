/**
 * The connection node as the program lays it out: one block of bytes in which the outbound offset
 * (a 32-bit word at +20) and the receive-pending flag (a byte at +20) share storage.
 */
module ConnectionNode {
  import opened Bytes
  import opened Growable
  import opened FastSocket
  import opened Connection

  const SEND_PENDING := 16
  const SEND_OFFSET := 20
  const RECV_FLAG := 20
  const SEND_BYTES_DONE := 24
  const RECV_BYTES_TOTAL := 28
  const FSM_STATE := 64
  const UPNP_SUBMODE := 68
  const GATEWAY_CTX := 72
  const NODE_SIZE := 76

  type int32 = v: int | -0x8000_0000 <= v < 0x8000_0000

  /** The four bytes at `off` are the 32-bit word `v`. */
  ghost predicate WordAt(raw: array<byte>, off: nat, v: int)
    requires off + 4 <= raw.Length
    reads raw
  {
    forall i :: 0 <= i < 4 ==> raw[off + i] == ToLE32(v)[i]
  }

  /** The words and flags of the node, as the machine has them. */
  datatype Fields = Fields(fsm: int, sendArmed: bool, sendOffset: nat, recvFlag: Option<bool>,
                           sendBytesDone: int, recvBytesTotal: int, upnpMode: int, gateway: int)

  function FieldsOf(s: Conn): Fields {
    Fields(s.fsm, s.sendArmed, s.sendOffset, s.recvFlag, s.sendBytesDone, s.recvBytesTotal, s.upnpMode, s.gateway)
  }

  /** The bytes hold the machine's words and flags; +20 means whatever was last written there. */
  ghost predicate FieldsRefine(raw: array<byte>, f: Fields)
    requires raw.Length == NODE_SIZE
    reads raw
  {
    && WordAt(raw, FSM_STATE, f.fsm)
    && raw[SEND_PENDING] == (if f.sendArmed then 1 else 0)
    && WordAt(raw, SEND_BYTES_DONE, f.sendBytesDone)
    && WordAt(raw, RECV_BYTES_TOTAL, f.recvBytesTotal)
    && WordAt(raw, UPNP_SUBMODE, f.upnpMode)
    && WordAt(raw, GATEWAY_CTX, f.gateway)
    && match f.recvFlag
       case None => WordAt(raw, SEND_OFFSET, f.sendOffset)
       case Some(b) => raw[RECV_FLAG] == if b then 1 else 0
  }

  /** The node's configuration words fit their four bytes. */
  ghost predicate Words(s: Conn) {
    -0x8000_0000 <= s.upnpMode < 0x8000_0000 && -0x8000_0000 <= s.gateway < 0x8000_0000
  }

  /** State 1 took the branch that connects again. */
  ghost predicate Retries(s: Conn, o: Oracle) {
    s.hasSocket && !o.poll.readable && o.poll.exceptional && o.poll.socketError != 0
  }

  method NewNodeBytes(upnpMode: int32, gateway: int32, ghost s: Conn) returns (raw: array<byte>)
    requires s.fsm == 1 && !s.sendArmed && s.recvFlag.None?
    requires s.sendOffset == 0 && s.sendBytesDone == 0 && s.recvBytesTotal == 0
    requires s.upnpMode == upnpMode && s.gateway == gateway
    ensures fresh(raw) && raw.Length == NODE_SIZE && FieldsRefine(raw, FieldsOf(s))
  {
    raw := new byte[NODE_SIZE](i => 0);
    var u, g := ToLE32(upnpMode), ToLE32(gateway);
    raw[FSM_STATE] := 1;
    var i := 0;
    while i < 4
      invariant 0 <= i <= 4
      invariant forall k :: 0 <= k < UPNP_SUBMODE ==> raw[k] == if k == FSM_STATE then 1 else 0
      invariant forall k :: 0 <= k < i ==> raw[UPNP_SUBMODE + k] == u[k] && raw[GATEWAY_CTX + k] == g[k]
    {
      raw[UPNP_SUBMODE + i], raw[GATEWAY_CTX + i] := u[i], g[i];
      i := i + 1;
    }
    assert ToLE32(0) == [0, 0, 0, 0] && ToLE32(1) == [1, 0, 0, 0];
    assert WordAt(raw, UPNP_SUBMODE, upnpMode) && WordAt(raw, GATEWAY_CTX, gateway);
  }

  class ConnectionNode {
    const raw: array<byte>
    const recv: GrowableBuffer
    const outbound: seq<byte>
    const hasSocket: bool      // are the two slots at +4 and +8, which name the same socket, filled?
    const socket: CFastSocket

    /** The buffers are pairwise separate. */
    ghost predicate Valid()
      reads this, recv, socket, socket.sendStaging, socket.recvStaging
    {
      && raw.Length == NODE_SIZE
      && recv.Valid() && 0 <= recv.growthMode <= 2
      && socket.Valid()
      && recv != socket.sendStaging && recv != socket.recvStaging
      && raw != recv.data && raw != socket.sendStaging.data && raw != socket.recvStaging.data
      && (recv.data != null ==> recv.data != socket.sendStaging.data && recv.data != socket.recvStaging.data)
    }

    /** The overlapped node stands for the machine with separate fields. */
    ghost predicate Refines(s: Conn)
      requires Valid()
      reads this, raw, recv, recv.data, socket, socket.sendStaging, socket.sendStaging.data, socket.recvStaging
    {
      && FieldsRefine(raw, FieldsOf(s))
      && s.outbound == outbound
      && s.recv == recv.Contents()
      && s.hasSocket == hasSocket
      && s.sock == socket.State()
    }

    method ReadInt(off: nat, ghost v: int32) returns (r: int)
      requires off + 4 <= raw.Length && WordAt(raw, off, v)
      ensures r == v
    {
      r := Signed32(FromLE32(raw[off..off + 4]));
      assert raw[off..off + 4] == ToLE32(v);
      SignedLE32RoundTrip(v);
    }

    method WriteInt(off: nat, v: int32)
      requires off + 4 <= raw.Length
      modifies raw
      ensures WordAt(raw, off, v)
      ensures forall i :: 0 <= i < raw.Length && !(off <= i < off + 4) ==> raw[i] == old(raw[i])
    {
      var b := ToLE32(v);
      raw[off], raw[off + 1], raw[off + 2], raw[off + 3] := b[0], b[1], b[2], b[3];
    }

    method WriteFlag(off: nat, b: bool)
      requires off < raw.Length
      modifies raw
      ensures raw[off] == if b then 1 else 0
      ensures forall i :: 0 <= i < raw.Length && i != off ==> raw[i] == old(raw[i])
    {
      raw[off] := if b then 1 else 0;
    }

    /** A node as the driver receives it: counters and flags zero, waiting for the connect. */
    constructor (filled: bool, sock: CFastSocket, bytes: seq<byte>, upnpMode: int32, gateway: int32,
                 mode: int, minCap: int)
      requires sock.Valid() && 0 <= mode <= 2
      ensures Valid() && fresh(raw) && fresh(recv)
      ensures hasSocket == filled && socket == sock && outbound == bytes
      ensures recv.GetLedger() == Ledger(Shape(0, 0, mode, minCap), 0) && recv.data == null
      ensures Refines(Conn(1, filled, bytes, false, 0, None, 0, 0, [], upnpMode, gateway, sock.State()))
    {
      ghost var s := Conn(1, filled, bytes, false, 0, None, 0, 0, [], upnpMode, gateway, sock.State());
      var block := NewNodeBytes(upnpMode, gateway, s);
      raw := block;
      recv := new GrowableBuffer(mode, minCap);
      outbound, hasSocket, socket := bytes, filled, sock;
    }

    // One field at a time: each write moves the node from standing for `s` to standing for `s` with
    // that field replaced.

    method SetFsm(v: int32, ghost s: Conn)
      requires Valid() && Refines(s)
      modifies raw
      ensures Refines(s.(fsm := v))
    {
      WriteInt(FSM_STATE, v);
    }

    method SetArmed(b: bool, ghost s: Conn)
      requires Valid() && Refines(s)
      modifies raw
      ensures Refines(s.(sendArmed := b))
    {
      WriteFlag(SEND_PENDING, b);
    }

    /** The first such write ends the life of the offset word. */
    method SetRecvFlag(b: bool, ghost s: Conn)
      requires Valid() && Refines(s)
      modifies raw
      ensures Refines(s.(recvFlag := Some(b)))
    {
      WriteFlag(RECV_FLAG, b);
    }

    /** send_offset += bytes, while that word is still alive. */
    method AddOffset(bytes: nat, ghost s: Conn)
      requires Valid() && Refines(s) && s.recvFlag.None? && s.sendOffset + bytes < 0x8000_0000
      modifies raw
      ensures Refines(s.(sendOffset := s.sendOffset + bytes))
    {
      var offset := ReadInt(SEND_OFFSET, s.sendOffset);
      WriteInt(SEND_OFFSET, offset + bytes);
    }

    method AddBytesDone(bytes: nat, ghost s: Conn)
      requires Valid() && Refines(s) && 0 <= s.sendBytesDone && s.sendBytesDone + bytes < 0x8000_0000
      modifies raw
      ensures Refines(s.(sendBytesDone := s.sendBytesDone + bytes))
    {
      var done := ReadInt(SEND_BYTES_DONE, s.sendBytesDone);
      WriteInt(SEND_BYTES_DONE, done + bytes);
    }

    method AddReceived(bytes: nat, ghost s: Conn)
      requires Valid() && Refines(s) && s.recvFlag.Some?
      requires 0 <= s.recvBytesTotal && s.recvBytesTotal + bytes < 0x8000_0000
      modifies raw
      ensures Refines(s.(recvBytesTotal := s.recvBytesTotal + bytes))
    {
      var total := ReadInt(RECV_BYTES_TOTAL, s.recvBytesTotal);
      WriteInt(RECV_BYTES_TOTAL, total + bytes);
    }

    method GetFsm(ghost s: Conn) returns (r: int)
      requires Valid() && Refines(s) && 0 <= s.fsm <= 5
      ensures r == s.fsm
    {
      r := ReadInt(FSM_STATE, s.fsm);
    }

    /** Reads the word the receive flag shares: allowed only before that flag is first written. */
    method GetOffset(ghost s: Conn) returns (r: int)
      requires Valid() && Refines(s) && s.recvFlag.None? && s.sendOffset < 0x8000_0000
      ensures r == s.sendOffset
    {
      r := ReadInt(SEND_OFFSET, s.sendOffset);
    }

    method GetReceived(ghost s: Conn) returns (r: int)
      requires Valid() && Refines(s) && 0 <= s.recvBytesTotal < 0x8000_0000
      ensures r == s.recvBytesTotal
    {
      r := ReadInt(RECV_BYTES_TOTAL, s.recvBytesTotal);
    }

    method GetUpnpMode(ghost s: Conn) returns (r: int)
      requires Valid() && Refines(s) && Words(s)
      ensures r == s.upnpMode
    {
      r := ReadInt(UPNP_SUBMODE, s.upnpMode);
    }

    method GetGateway(ghost s: Conn) returns (r: int)
      requires Valid() && Refines(s) && Words(s)
      ensures r == s.gateway
    {
      r := ReadInt(GATEWAY_CTX, s.gateway);
    }

    /** Offer the rest of the outbound string, from the offset word. */
    method ArmSend(issue: Issue, ghost s: Conn) returns (ok: bool)
      requires Valid() && Refines(s)
      requires s.recvFlag.None? && s.sendOffset <= |s.outbound| < 0x8000_0000
      modifies raw, socket, socket.sendStaging, socket.sendStaging.data
      ensures Valid() && (socket.sendStaging.data == old(socket.sendStaging.data) || fresh(socket.sendStaging.data))
      ensures Refines(Connection.ArmSend(s, issue).0) && ok == Connection.ArmSend(s, issue).1
      ensures Connection.ArmSend(s, issue).0.fsm == s.fsm
    {
      hide FieldsRefine;
      var total := |outbound|;
      var offset := GetOffset(s);
      var slice := total - offset;
      if slice <= 0 {
        return false;
      }
      if !hasSocket {
        return false;
      }
      SetArmed(true, s);
      var err := socket.SendBytes(outbound[offset..], issue);
      if err != 0 {
        SetArmed(false, s.(sock := Send(s.sock, s.outbound[s.sendOffset..], issue).0, sendArmed := true));
        return false;
      }
      return true;
    }

    /** A pending socket error: connect again through the gateway. */
    method RetryConnect(connectError: int, ghost s: Conn) returns (ret: int)
      requires Valid() && Refines(s) && s.hasSocket && Words(s)
      modifies raw
      ensures ret == if s.gateway != 0 && (connectError == 0 || connectError == WSAEWOULDBLOCK) then 1 else 0
      ensures Refines(if ret == 1 then s else s.(fsm := 5))
    {
      hide FieldsRefine;
      var gateway := GetGateway(s);
      if gateway == 0 {
        SetFsm(5, s);
        return 0;
      }
      if connectError == 0 || connectError == WSAEWOULDBLOCK {
        return 1;
      }
      SetFsm(5, s);
      return 0;
    }

    method RunState1(o: Oracle, ghost s: Conn) returns (ret: int)
      requires Valid() && Refines(s) && Inv(s) && Words(s) && s.fsm == 1
      modifies raw, socket, socket.sendStaging, socket.sendStaging.data
      ensures Valid()
      ensures socket.sendStaging.data == old(socket.sendStaging.data) || fresh(socket.sendStaging.data)
      ensures Refines(Step1(s, o))
      ensures ret == if Step1(s, o).fsm == 2 || (Step1(s, o).fsm == 1 && Retries(s, o)) then 1 else 0
    {
      hide FieldsRefine;
      if !hasSocket || !(o.poll.readable || o.poll.exceptional) {
        return 0;
      }
      var pollOut := if o.poll.readable then 0 else o.poll.socketError;
      if pollOut != 0 {
        ret := RetryConnect(o.connectError, s);
        return;
      }
      var mode := GetUpnpMode(s);
      if mode != 1 && mode != 0 {
        SetFsm(5, s);
        return 0;
      }
      var armed := ArmSend(o.sendIssue, s);
      SetFsm(if armed then 2 else 5, Connection.ArmSend(s, o.sendIssue).0);
      return if armed then 1 else 0;
    }

    method AskRecv(len: int, issue: Issue, ghost s: Conn) returns (err: int)
      requires Valid() && Refines(s)
      modifies socket, socket.recvStaging
      ensures Valid() && (socket.recvStaging.data == old(socket.recvStaging.data) || fresh(socket.recvStaging.data))
      ensures Refines(s.(sock := Recv(s.sock, len, issue).0)) && err == Recv(s.sock, len, issue).1
    {
      hide FieldsRefine;
      hide Recv;
      err := socket.RecvBytes(len, issue);
    }

    /** The rest of state 2, once a completion of `bytes` bytes is known. */
    method CountSent(bytes: nat, o: Oracle, ghost s: Conn) returns (ret: int)
      requires Valid() && Refines(s) && s.recvFlag.None? && s.fsm == 2 && hasSocket
      requires s.sendOffset == s.sendBytesDone && s.sendOffset + bytes <= |s.outbound| < 0x8000_0000
      modifies raw, socket, socket.sendStaging, socket.sendStaging.data, socket.recvStaging
      ensures Valid()
      ensures socket.sendStaging.data == old(socket.sendStaging.data) || fresh(socket.sendStaging.data)
      ensures socket.recvStaging.data == old(socket.recvStaging.data) || fresh(socket.recvStaging.data)
      ensures Refines(Counted(s, bytes, o))
      ensures ret == if Counted(s, bytes, o).fsm == 2 then 1 else 0
    {
      hide FieldsRefine;
      hide CFastSocket.State;
      hide GrowableBuffer.Contents;
      hide Recv;
      hide Connection.ArmSend;
      AddOffset(bytes, s);
      AddBytesDone(bytes, s.(sendOffset := s.sendOffset + bytes));
      ghost var counted := s.(sendOffset := s.sendOffset + bytes, sendBytesDone := s.sendBytesDone + bytes);
      var offset := GetOffset(counted);
      if |outbound| - offset > 0 {
        var armed := ArmSend(o.sendIssue, counted);
        if armed {
          return 1;
        }
        SetFsm(5, Connection.ArmSend(counted, o.sendIssue).0);
        return 0;
      }
      FirstReceive(o.recvIssue, counted);
      return 0;
    }

    /** Everything went out: raise the flag that ends the offset word, and ask for a full buffer. */
    method FirstReceive(issue: Issue, ghost s: Conn)
      requires Valid() && Refines(s)
      modifies raw, socket, socket.recvStaging
      ensures Valid()
      ensures socket.recvStaging.data == old(socket.recvStaging.data) || fresh(socket.recvStaging.data)
      ensures Refines(Connection.FirstReceive(s, issue))
    {
      hide FieldsRefine;
      hide CFastSocket.State;
      hide GrowableBuffer.Contents;
      hide Recv;
      ghost var flagged := s.(recvFlag := Some(true));
      SetRecvFlag(true, s);
      var err := AskRecv(RECV_CAP, issue, flagged);
      ghost var asked := flagged.(sock := Recv(s.sock, RECV_CAP, issue).0);
      if err == 0 {
        SetFsm(3, asked);
        return;
      }
      SetRecvFlag(false, asked);
      SetFsm(5, asked.(recvFlag := Some(false)));
    }

    method RunState2(o: Oracle, ghost s: Conn) returns (ret: int)
      requires Valid() && Refines(s) && Inv(s) && s.fsm == 2 && Honest(s, o)
      modifies raw, socket, socket.sendStaging, socket.sendStaging.data, socket.recvStaging
      ensures Valid()
      ensures socket.sendStaging.data == old(socket.sendStaging.data) || fresh(socket.sendStaging.data)
      ensures socket.recvStaging.data == old(socket.recvStaging.data) || fresh(socket.recvStaging.data)
      ensures Refines(Step2(s, o))
      ensures ret == if Completes(s, o) && Step2(s, o).fsm == 2 then 1 else 0
    {
      hide FieldsRefine;
      if !hasSocket {
        return 0;
      }
      var done := socket.PollSend(o.sendPoll, o.sendDone);
      if done.None? {
        return 0;
      }
      ghost var polled := s.(sock := SendComplete(s.sock, o.sendPoll, o.sendDone), sendArmed := false);
      SetArmed(false, s.(sock := polled.sock));
      var bytes := Signed32(done.value);
      if bytes < 0 {
        SetFsm(5, polled);
        return 0;
      }
      ret := CountSent(bytes, o, polled);
    }

    /** Append the chunk that heads the receive staging buffer. */
    method AppendChunk(chunk: seq<byte>, ghost s: Conn)
      requires Valid() && Refines(s) && chunk != []
      requires socket.recvStaging.data != null && |chunk| <= socket.recvStaging.data.Length
      requires socket.recvStaging.data[..|chunk|] == chunk
      modifies recv, recv.data
      ensures Valid() && (recv.data == old(recv.data) || fresh(recv.data))
      ensures Refines(s.(recv := s.recv + chunk))
      ensures recv.GetLedger() == Grown(old(recv.GetLedger()), |chunk|)
    {
      hide FieldsRefine;
      var grown := recv.Append(socket.recvStaging.data, |chunk|, true);
    }

    /** The rest of state 3, once a non-empty chunk is known. */
    method Accumulate(chunk: seq<byte>, issue: Issue, ghost s: Conn)
      requires Valid() && Refines(s) && chunk != [] && s.recvFlag.Some? && s.fsm == 3
      requires socket.recvStaging.data != null && |chunk| <= socket.recvStaging.data.Length
      requires socket.recvStaging.data[..|chunk|] == chunk
      requires 0 <= s.recvBytesTotal && s.recvBytesTotal + |chunk| < 0x8000_0000
      modifies raw, recv, recv.data, socket, socket.recvStaging
      ensures Valid()
      ensures recv.data == old(recv.data) || fresh(recv.data)
      ensures socket.recvStaging.data == old(socket.recvStaging.data) || fresh(socket.recvStaging.data)
      ensures Refines(Accumulated(s, chunk, issue))
      ensures recv.GetLedger() == Grown(old(recv.GetLedger()), |chunk|)
    {
      hide FieldsRefine;
      hide CFastSocket.State;
      hide GrowableBuffer.Contents;
      hide Connection.AskForRest;
      AppendChunk(chunk, s);
      ghost var appended := s.(recv := s.recv + chunk);
      AddReceived(|chunk|, appended);
      AskForRest(issue, appended.(recvBytesTotal := s.recvBytesTotal + |chunk|));
    }

    /** Stop when the buffer is full, otherwise ask for the room left. */
    method AskForRest(issue: Issue, ghost s: Conn)
      requires Valid() && Refines(s) && s.recvFlag.Some? && s.fsm == 3 && 0 <= s.recvBytesTotal < 0x8000_0000
      modifies raw, socket, socket.recvStaging
      ensures Valid()
      ensures socket.recvStaging.data == old(socket.recvStaging.data) || fresh(socket.recvStaging.data)
      ensures Refines(Connection.AskForRest(s, issue))
    {
      hide FieldsRefine;
      hide CFastSocket.State;
      hide GrowableBuffer.Contents;
      hide Recv;
      var total := GetReceived(s);
      var remaining := RECV_CAP - total;
      if remaining <= 0 {
        SetFsm(4, s);
        return;
      }
      SetRecvFlag(true, s);
      ghost var flagged := s.(recvFlag := Some(true));
      var err := AskRecv(remaining, issue, flagged);
      if err != 0 {
        SetFsm(5, flagged.(sock := Recv(s.sock, remaining, issue).0));
      }
    }

    method RunState3(o: Oracle, ghost s: Conn) returns (ret: int)
      requires Valid() && Refines(s) && Inv(s) && s.fsm == 3 && Honest(s, o)
      modifies raw, recv, recv.data, socket, socket.recvStaging, socket.recvStaging.data
      ensures Valid()
      ensures recv.data == old(recv.data) || fresh(recv.data)
      ensures socket.recvStaging.data == old(socket.recvStaging.data) || fresh(socket.recvStaging.data)
      ensures Refines(Step3(s, o)) && ret == 0
      ensures recv.GetLedger() == Grown(old(recv.GetLedger()), |DeliveredBy(s, o)|)
    {
      hide FieldsRefine;
      ret := 0;
      if !hasSocket {
        return;
      }
      var done := socket.PollRecv(o.recvPoll);
      if done.None? {
        return;
      }
      ghost var polled := s.(sock := RecvComplete(s.sock, o.recvPoll), recvFlag := Some(false));
      SetRecvFlag(false, s.(sock := polled.sock));
      if done.value <= 0 {
        SetFsm(4, polled);
        return;
      }
      Accumulate(o.recvPoll.chunk, o.recvIssue, polled);
    }

    /** What the driver does with one set of answers: the state word picks the step. */
    method DriveOnce(o: Oracle, ghost s: Conn)
      requires Valid() && Refines(s) && Inv(s) && Words(s) && Honest(s, o)
      modifies raw, recv, recv.data, socket, socket.sendStaging, socket.sendStaging.data,
               socket.recvStaging, socket.recvStaging.data
      ensures Valid() && Refines(Step(s, o))
      ensures recv.GetLedger() == Grown(old(recv.GetLedger()), |DeliveredBy(s, o)|)
      ensures recv.data == old(recv.data) || fresh(recv.data)
      ensures socket.sendStaging.data == old(socket.sendStaging.data) || fresh(socket.sendStaging.data)
      ensures socket.recvStaging.data == old(socket.recvStaging.data) || fresh(socket.recvStaging.data)
    {
      hide FieldsRefine;
      var state := GetFsm(s);
      if state == 1 {
        var ret := RunState1(o, s);
      } else if state == 2 {
        var ret := RunState2(o, s);
      } else if state == 3 {
        var ret := RunState3(o, s);
      }
    }

    /**
     * Layout refinement over whole runs: driven through any honest environment, the overlapped bytes
     * stand for exactly the state the machine with separate fields reaches, and the receive buffer has
     * grown by exactly the delivered chunks.
     */
    method Drive(os: seq<Oracle>, ghost s: Conn)
      requires Valid() && Refines(s) && Inv(s) && Words(s) && HonestRun(s, os)
      modifies raw, recv, recv.data, socket, socket.sendStaging, socket.sendStaging.data,
               socket.recvStaging, socket.recvStaging.data
      ensures Valid() && Refines(Run(s, os))
      ensures recv.GetLedger() == GrownAll(old(recv.GetLedger()), ChunkLengths(s, os))
      decreases |os|
    {
      hide FieldsRefine;
      hide Step;
      hide Grown;
      if os != [] {
        ghost var t := Step(s, os[0]);
        StepKeepsInv(s, os[0]);
        GrownByOneStep(recv.GetLedger(), s, os);
        DriveOnce(os[0], s);
        Drive(os[1..], t);
      }
    }
  }

  /**
   * The whole life of a connection, from the zeroed block: the overlapped bytes follow the machine, and
   * in growth modes 0 and 1 the receive buffer copies linearly much.
   */
  method Connect(socket: CFastSocket, outbound: seq<byte>, upnpMode: int32, gateway: int32,
                 mode: int, minCap: int, os: seq<Oracle>, ghost s: Conn) returns (node: ConnectionNode)
    requires socket.Valid() && 0 <= mode <= 2
    requires s == Conn(1, true, outbound, false, 0, None, 0, 0, [], upnpMode, gateway, socket.State())
    requires Initial(s) && HonestRun(s, os)
    modifies socket, socket.sendStaging, socket.sendStaging.data, socket.recvStaging, socket.recvStaging.data
    ensures node.Valid() && node.Refines(Run(s, os))
    ensures Inv(Run(s, os)) && node.recv.size == |Delivered(s, os)| <= RECV_CAP
    ensures mode == 0 ==> node.recv.copied <= 32 * node.recv.capacity
    ensures mode == 1 ==> node.recv.copied <= 8 * node.recv.capacity
  {
    InitialInv(s);
    RunKeepsInv(s, os);
    ReceiveAccumulates(s, os);
    if mode < 2 {
      ReceiveGrowthIsLinear(s, os, mode, minCap);
    }
    node := new ConnectionNode(true, socket, outbound, upnpMode, gateway, mode, minCap);
    node.Drive(os, s);
  }

  /**
   * The overlap is real: writing the flag over the low byte of the offset word changes the number
   * read back, unless that byte happened to be the flag already.
   */
  lemma FlagDestroysOffset(offset: int, flag: byte)
    requires 0 <= offset < 0x8000_0000
    ensures FromLE32(ToLE32(offset)[0 := flag]) == offset - offset % 0x100 + flag
    ensures FromLE32(ToLE32(offset)[0 := flag]) == offset <==> offset % 0x100 == flag
  {
  }
}
