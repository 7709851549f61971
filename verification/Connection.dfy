/**
 * The connection state machine with every field in its own place: one step per call of the
 * driver, the environment's answers given by an oracle.
 */
module Connection {
  import opened Bytes
  import opened FastSocket
  import opened Growable

  const RECV_CAP := 0x8000
  const WSAEWOULDBLOCK := 10035

  /** What select and getsockopt say about the socket. */
  datatype Poll = Poll(readable: bool, exceptional: bool, socketError: nat)

  /**
   * Every answer of the environment one step can ask for. `sendDone` is no answer but what has become
   * of the outstanding send by now: None while it is under way, else the bytes it carried.
   */
  datatype Oracle = Oracle(poll: Poll, connectError: int, sendIssue: Issue, sendPoll: SendPoll,
                           sendDone: Option<nat>, recvIssue: Issue, recvPoll: RecvPoll)

  datatype Conn = Conn(
    fsm: int,
    hasSocket: bool,
    outbound: seq<byte>,
    sendArmed: bool,
    sendOffset: nat,
    recvFlag: Option<bool>,  // the connection's receive-pending flag, None before its first write
    sendBytesDone: int,
    recvBytesTotal: int,
    recv: seq<byte>,
    upnpMode: int,
    gateway: int,            // pointer to the gateway context, 0 when there is none
    sock: Sock)

  function ArmSend(s: Conn, issue: Issue): (Conn, bool) {
    if |s.outbound| - s.sendOffset <= 0 || !s.hasSocket then (s, false)
    else
      var (k, err) := Send(s.sock, s.outbound[s.sendOffset..], issue);
      (s.(sock := k, sendArmed := err == 0), err == 0)
  }

  /** The connect is through: offer the outbound string. */
  function Launched(s: Conn, issue: Issue): Conn {
    if s.upnpMode != 0 && s.upnpMode != 1 then s.(fsm := 5)
    else
      var (armed, ok) := ArmSend(s, issue);
      armed.(fsm := if ok then 2 else 5)
  }

  /** Waiting for the connect to finish; a pending socket error retries the connect. */
  function Step1(s: Conn, o: Oracle): Conn {
    if !s.hasSocket || !(o.poll.readable || o.poll.exceptional) then s
    else if !o.poll.readable && o.poll.socketError != 0 then
      if s.gateway != 0 && (o.connectError == 0 || o.connectError == WSAEWOULDBLOCK) then s
      else s.(fsm := 5)
    else Launched(s, o.sendIssue)
  }

  /** Part of the outbound string is left: offer it. */
  function Rearmed(s: Conn, issue: Issue): Conn {
    var (armed, ok) := ArmSend(s, issue);
    if ok then armed else armed.(fsm := 5)
  }

  /** All of it went out: ask for a full buffer. */
  function FirstReceive(s: Conn, issue: Issue): Conn {
    var (k, err) := Recv(s.sock, RECV_CAP, issue);
    s.(sock := k, recvFlag := Some(err == 0), fsm := if err == 0 then 3 else 5)
  }

  /** A send completion of `bytes` bytes. */
  function Counted(s: Conn, bytes: nat, o: Oracle): Conn {
    var t := s.(sendOffset := s.sendOffset + bytes, sendBytesDone := s.sendBytesDone + bytes);
    if |t.outbound| - t.sendOffset > 0 then Rearmed(t, o.sendIssue) else FirstReceive(t, o.recvIssue)
  }

  function Step2(s: Conn, o: Oracle): Conn {
    if !s.hasSocket || SendReported(s.sock, o.sendPoll).None? then s
    else
      var polled := s.(sock := SendComplete(s.sock, o.sendPoll, o.sendDone), sendArmed := false);
      var bytes := Signed32(o.sendPoll.transferred);
      if bytes < 0 then polled.(fsm := 5) else Counted(polled, bytes, o)
  }

  /** Ask for the room left, or stop when the buffer is full. */
  function AskForRest(s: Conn, issue: Issue): Conn {
    var remaining := RECV_CAP - s.recvBytesTotal;
    if remaining <= 0 then s.(fsm := 4)
    else
      var (k, err) := Recv(s.sock, remaining, issue);
      s.(sock := k, recvFlag := Some(true), fsm := if err == 0 then s.fsm else 5)
  }

  /** A non-empty received chunk. */
  function Accumulated(s: Conn, chunk: seq<byte>, issue: Issue): Conn {
    AskForRest(s.(recv := s.recv + chunk, recvBytesTotal := s.recvBytesTotal + |chunk|), issue)
  }

  function Step3(s: Conn, o: Oracle): Conn {
    if !s.hasSocket || RecvReported(s.sock, o.recvPoll).None? then s
    else
      var polled := s.(sock := RecvComplete(s.sock, o.recvPoll), recvFlag := Some(false));
      if o.recvPoll.chunk == [] then polled.(fsm := 4)
      else Accumulated(polled, o.recvPoll.chunk, o.recvIssue)
  }

  /** The driver calls the step of the current state; in every other state it leaves this machine. */
  function Step(s: Conn, o: Oracle): Conn {
    if s.fsm == 1 then Step1(s, o)
    else if s.fsm == 2 then Step2(s, o)
    else if s.fsm == 3 then Step3(s, o)
    else s
  }

  function Run(s: Conn, os: seq<Oracle>): Conn
    decreases |os|
  {
    if os == [] then s else Run(Step(s, os[0]), os[1..])
  }

  // ---- What the environment may do ----

  /** A completion never transfers more than its operation asked for. */
  ghost predicate Honest(s: Conn, o: Oracle) {
    && (o.sendPoll.SendReady? ==> o.sendPoll.transferred <= |s.sock.sendStaged|)
    && (o.recvPoll.RecvReady? ==> |o.recvPoll.chunk| <= s.sock.recvAsked)
  }

  ghost predicate HonestRun(s: Conn, os: seq<Oracle>)
    decreases |os|
  {
    os == [] || (Honest(s, os[0]) && HonestRun(Step(s, os[0]), os[1..]))
  }

  /**
   * What is reported on the polled block, +168, is the completion of the outstanding send, although
   * that send was issued on the block at +116.
   */
  ghost predicate ReportIsCompletion(s: Conn, o: Oracle) {
    SendReported(s.sock, o.sendPoll).Some? ==> o.sendDone == SendReported(s.sock, o.sendPoll)
  }

  ghost predicate ReportsAreCompletions(s: Conn, os: seq<Oracle>)
    decreases |os|
  {
    os == [] || (ReportIsCompletion(s, os[0]) && ReportsAreCompletions(Step(s, os[0]), os[1..]))
  }

  /** The system reports transfers only on blocks it was given with some operation. */
  ghost predicate ReportsOnlyGiven(s: Conn, o: Oracle) {
    SendReported(s.sock, o.sendPoll).Some? ==> SEND_OVERLAP in s.sock.given
  }

  ghost predicate AllReportsOnlyGiven(s: Conn, os: seq<Oracle>)
    decreases |os|
  {
    os == [] || (ReportsOnlyGiven(s, os[0]) && AllReportsOnlyGiven(Step(s, os[0]), os[1..]))
  }

  // ---- What crossed the wire in a run, read off the completions ----

  /** The staged bytes the outstanding send had carried away when a report was taken in this step. */
  function SentBy(s: Conn, o: Oracle): seq<byte> {
    if s.fsm == 2 && s.hasSocket && SendReported(s.sock, o.sendPoll).Some? && o.sendDone.Some?
    then s.sock.sendStaged[..Min(o.sendDone.value, |s.sock.sendStaged|)]
    else []
  }

  function Sent(s: Conn, os: seq<Oracle>): seq<byte>
    decreases |os|
  {
    if os == [] then [] else SentBy(s, os[0]) + Sent(Step(s, os[0]), os[1..])
  }

  function DeliveredBy(s: Conn, o: Oracle): seq<byte> {
    if s.fsm == 3 && s.hasSocket && RecvReported(s.sock, o.recvPoll).Some? then o.recvPoll.chunk else []
  }

  function Delivered(s: Conn, os: seq<Oracle>): seq<byte>
    decreases |os|
  {
    if os == [] then [] else DeliveredBy(s, os[0]) + Delivered(Step(s, os[0]), os[1..])
  }

  /** Does this step consume a completion? */
  predicate Completes(s: Conn, o: Oracle) {
    && s.hasSocket
    && (|| (s.fsm == 2 && SendReported(s.sock, o.sendPoll).Some?)
        || (s.fsm == 3 && RecvReported(s.sock, o.recvPoll).Some?))
  }

  function Completions(s: Conn, os: seq<Oracle>): nat
    decreases |os|
  {
    if os == [] then 0
    else (if Completes(s, os[0]) then 1 else 0) + Completions(Step(s, os[0]), os[1..])
  }

  // ---- The invariant ----

  /** A connection as the driver hands it over: counters at zero, nothing in flight. */
  ghost predicate Initial(s: Conn) {
    && s.fsm == 1
    && |s.outbound| < 0x8000_0000
    && s.sendOffset == 0 && s.sendBytesDone == 0 && s.recvBytesTotal == 0
    && s.recvFlag.None? && !s.sendArmed
    && !s.sock.sendPending && !s.sock.recvPending
    && s.sock.sendsInFlight == 0 && s.sock.recvsInFlight == 0 && s.sock.clobbers == 0
    && SEND_OVERLAP !in s.sock.given
  }

  ghost predicate InFlight(s: Conn, sends: nat, recvs: nat) {
    s.sock.sendsInFlight == sends && s.sock.recvsInFlight == recvs
  }

  ghost predicate Inv(s: Conn) {
    && 1 <= s.fsm <= 5
    && |s.outbound| < 0x8000_0000
    && s.sendOffset <= |s.outbound|
    && s.sendBytesDone == s.sendOffset
    && 0 <= s.recvBytesTotal <= RECV_CAP
    && (s.sendArmed <==> s.fsm == 2)
    && (s.fsm == 1 ==> s.sendOffset == 0)
    && (s.fsm == 2 ==> s.sendOffset < |s.outbound| && s.sock.sendStaged == s.outbound[s.sendOffset..])
    && (s.fsm <= 2 ==> s.recvFlag.None? && s.recvBytesTotal == 0)
    && (s.fsm == 3 ==>
          && s.recvFlag == Some(true) && s.sock.recvPending
          && s.recvBytesTotal < RECV_CAP && s.sock.recvAsked == RECV_CAP - s.recvBytesTotal)
    && (3 <= s.fsm <= 4 ==> s.sendOffset == |s.outbound|)
  }

  /** What is in flight is what the state is waiting for, and nothing in flight was ever touched. */
  ghost predicate Exclusive(s: Conn) {
    s.sock.clobbers == 0 && InFlight(s, if s.fsm == 2 then 1 else 0, if s.fsm == 3 then 1 else 0)
  }

  lemma InitialInv(s: Conn)
    requires Initial(s)
    ensures Inv(s) && Exclusive(s)
  {
  }

  lemma ArmSendEffect(s: Conn, issue: Issue)
    requires s.hasSocket && s.sendOffset < |s.outbound|
    ensures var (armed, ok) := ArmSend(s, issue);
            && armed == s.(sock := armed.sock, sendArmed := ok)
            && armed.sock.clobbers == s.sock.clobbers + Clobbered(s.sock.sendsInFlight)
            && InFlight(armed, s.sock.sendsInFlight + (if ok then 1 else 0), s.sock.recvsInFlight)
            && armed.sock.sendStaged == s.outbound[s.sendOffset..]
            && ok == !issue.outcome.Refused?
  {
  }

  /** The bytes reported as sent in this step. */
  function ReportedBy(s: Conn, o: Oracle): nat {
    if s.fsm == 2 && Completes(s, o) then o.sendPoll.transferred else 0
  }

  /** What one honest step does to the counters and the receive buffer. */
  ghost predicate Progress(s: Conn, t: Conn, reported: nat, delivered: seq<byte>) {
    && t.outbound == s.outbound && t.upnpMode == s.upnpMode && t.gateway == s.gateway
    && t.sendOffset == s.sendOffset + reported <= |s.outbound|
    && t.recv == s.recv + delivered
    && t.recvBytesTotal == s.recvBytesTotal + |delivered|
  }

  lemma Step1KeepsInv(s: Conn, o: Oracle)
    requires Inv(s) && s.fsm == 1
    ensures Inv(Step1(s, o)) && Progress(s, Step1(s, o), 0, [])
    ensures Exclusive(s) ==> Exclusive(Step1(s, o))
  {
    if s.hasSocket && s.sendOffset < |s.outbound| {
      ArmSendEffect(s, o.sendIssue);
    }
  }

  /** The state after a report of n > 0 bytes was taken, and before it is acted on. */
  function Taken(s: Conn, o: Oracle): Conn
    requires s.fsm == 2 && Completes(s, o)
  {
    var n := o.sendPoll.transferred;
    s.(sock := SendComplete(s.sock, o.sendPoll, o.sendDone), sendArmed := false,
       sendOffset := s.sendOffset + n, sendBytesDone := s.sendBytesDone + n)
  }

  lemma Step2Taken(s: Conn, o: Oracle)
    requires Inv(s) && s.fsm == 2 && Honest(s, o) && Completes(s, o)
    ensures var t := Taken(s, o);
            Step2(s, o) == if t.sendOffset < |s.outbound| then Rearmed(t, o.sendIssue) else FirstReceive(t, o.recvIssue)
    ensures s.sendOffset < Taken(s, o).sendOffset <= |s.outbound|
  {
    assert Signed32(o.sendPoll.transferred) == o.sendPoll.transferred;
  }

  lemma Step2KeepsInv(s: Conn, o: Oracle)
    requires Inv(s) && s.fsm == 2 && Honest(s, o)
    ensures Inv(Step2(s, o)) && Progress(s, Step2(s, o), ReportedBy(s, o), [])
  {
    if Completes(s, o) {
      Step2Taken(s, o);
      var t := Taken(s, o);
      if t.sendOffset < |s.outbound| {
        ArmSendEffect(t, o.sendIssue);
      }
    }
  }

  lemma Step3KeepsInv(s: Conn, o: Oracle)
    requires Inv(s) && s.fsm == 3 && Honest(s, o)
    ensures Inv(Step3(s, o)) && Progress(s, Step3(s, o), 0, DeliveredBy(s, o))
    ensures Exclusive(s) ==> Exclusive(Step3(s, o))
  {
  }

  /** Every step against an honest environment keeps the invariant. */
  lemma StepKeepsInv(s: Conn, o: Oracle)
    requires Inv(s) && Honest(s, o)
    ensures Inv(Step(s, o)) && Progress(s, Step(s, o), ReportedBy(s, o), DeliveredBy(s, o))
  {
    if s.fsm == 1 {
      Step1KeepsInv(s, o);
    } else if s.fsm == 2 {
      Step2KeepsInv(s, o);
    } else if s.fsm == 3 {
      Step3KeepsInv(s, o);
    }
  }

  lemma {:induction false} RunKeepsInv(s: Conn, os: seq<Oracle>)
    requires Inv(s) && HonestRun(s, os)
    ensures Inv(Run(s, os)) && Run(s, os).outbound == s.outbound && s.sendOffset <= Run(s, os).sendOffset
    decreases |os|
  {
    if os != [] {
      StepKeepsInv(s, os[0]);
      RunKeepsInv(Step(s, os[0]), os[1..]);
    }
  }

  /**
   * After a report is taken, what is in flight is what the new state waits for, on untouched staging,
   * exactly if the outstanding send really had completed.
   */
  lemma ReportDecides(s: Conn, o: Oracle)
    requires Inv(s) && Exclusive(s) && Honest(s, o) && s.fsm == 2 && Completes(s, o)
    ensures Exclusive(Step(s, o)) <==> o.sendDone.Some?
  {
    Step2Taken(s, o);
    var t := Taken(s, o);
    if t.sendOffset < |s.outbound| {
      ArmSendEffect(t, o.sendIssue);
    }
  }

  /** If reports are completions, what is in flight stays exclusive and the bytes sent are the next ones. */
  lemma StepKeepsExclusive(s: Conn, o: Oracle)
    requires Inv(s) && Exclusive(s) && Honest(s, o) && ReportIsCompletion(s, o)
    ensures Exclusive(Step(s, o))
    ensures s.sendOffset <= Step(s, o).sendOffset <= |s.outbound|
    ensures SentBy(s, o) == s.outbound[s.sendOffset..Step(s, o).sendOffset]
  {
    StepKeepsInv(s, o);
    if s.fsm == 1 {
      Step1KeepsInv(s, o);
    } else if s.fsm == 2 && Completes(s, o) {
      ReportDecides(s, o);
      Step2Taken(s, o);
      assert Step(s, o).sendOffset == Taken(s, o).sendOffset;
    } else if s.fsm == 3 {
      Step3KeepsInv(s, o);
    }
  }

  /** Exactly-once sending, from any point of a run. */
  lemma {:induction false} SentIsNext(s: Conn, os: seq<Oracle>)
    requires Inv(s) && Exclusive(s) && HonestRun(s, os) && ReportsAreCompletions(s, os)
    ensures Inv(Run(s, os)) && Exclusive(Run(s, os))
    ensures Run(s, os).outbound == s.outbound
    ensures s.sendOffset <= Run(s, os).sendOffset
    ensures Sent(s, os) == s.outbound[s.sendOffset..Run(s, os).sendOffset]
    decreases |os|
  {
    hide Step;
    hide Inv;
    hide Exclusive;
    hide SentBy;
    hide Honest;
    if os != [] {
      var t := Step(s, os[0]);
      StepKeepsInv(s, os[0]);
      StepKeepsExclusive(s, os[0]);
      SentIsNext(t, os[1..]);
      OffsetInside(Run(t, os[1..]));
      SlicesJoin(s.outbound, s.sendOffset, t.sendOffset, Run(t, os[1..]).sendOffset);
    } else {
      OffsetInside(s);
    }
  }

  lemma OffsetInside(s: Conn)
    requires Inv(s)
    ensures s.sendOffset <= |s.outbound|
  {
  }

  lemma SlicesJoin(text: seq<byte>, a: nat, b: nat, c: nat)
    requires a <= b <= c <= |text|
    ensures text[a..b] + text[b..c] == text[a..c]
  {
  }

  /**
   * Exactly once, in order: whatever the partial completions, the bytes gone out are the outbound
   * string up to the send offset, and the machine only receives once the whole string has gone out.
   */
  lemma ExactlyOnceSending(s: Conn, os: seq<Oracle>)
    requires Initial(s) && HonestRun(s, os) && ReportsAreCompletions(s, os)
    ensures var t := Run(s, os);
            && t.sendOffset <= |s.outbound| && t.sendOffset == t.sendBytesDone
            && Sent(s, os) == s.outbound[..t.sendOffset]
            && (3 <= t.fsm <= 4 ==> Sent(s, os) == s.outbound)
  {
    SentIsNext(s, os);
  }

  // ---- What each answer makes of the connection ----

  /** The rest of the outbound string from `t.sendOffset` on was offered and taken. */
  ghost predicate Offering(s: Conn, t: Conn, issue: Issue) {
    && t.fsm == 2 && t.sendArmed
    && t.sendOffset <= |s.outbound| && t.sock.sendStaged == s.outbound[t.sendOffset..]
    && t.sock.sendOps == s.sock.sendOps + 1 && t.sock.retries == s.sock.retries + issue.interrupts
    && (t.sock.sendPending <==> issue.outcome.Accepted?)
  }

  /** A receive of `room` bytes was asked for and taken. */
  ghost predicate Asking(s: Conn, t: Conn, room: int, issue: Issue) {
    && t.fsm == 3 && t.recvFlag == Some(true) && t.sock.recvPending && t.sock.recvAsked == room
    && t.sock.retries == s.sock.retries + issue.interrupts
  }

  /** Nothing but the state changed: given up or finished. */
  ghost predicate StateOnly(s: Conn, t: Conn, fsm: int) {
    t == s.(fsm := fsm)
  }

  /** State 1, for every answer. */
  lemma ConnectAnswers(s: Conn, o: Oracle)
    requires Inv(s) && s.fsm == 1
    ensures var t := Step(s, o);
            && (!s.hasSocket || (!o.poll.readable && !o.poll.exceptional) ==> t == s)
            && (s.hasSocket && !o.poll.readable && o.poll.exceptional && o.poll.socketError != 0 ==>
                  if s.gateway != 0 && (o.connectError == 0 || o.connectError == 10035) then t == s
                  else StateOnly(s, t, 5))
            && (s.hasSocket && (o.poll.readable || (o.poll.exceptional && o.poll.socketError == 0)) ==>
                  if (s.upnpMode != 0 && s.upnpMode != 1) || s.outbound == [] then StateOnly(s, t, 5)
                  else if o.sendIssue.outcome.Refused? then t.fsm == 5 && t.sock.sendOps == s.sock.sendOps
                  else t.sendOffset == 0 && t.sendBytesDone == 0 && Offering(s, t, o.sendIssue))
  {
  }

  /**
   * State 2: on a marked send every report of n > 0 bytes, partial or not, is taken, counted, and
   * followed by an offer of the rest or the first receive; anything else changes nothing.
   */
  lemma SendReportIsTaken(s: Conn, o: Oracle)
    requires Inv(s) && s.fsm == 2
    ensures !s.hasSocket || !s.sock.sendPending || !o.sendPoll.SendReady? || o.sendPoll.transferred == 0 ==>
              Step(s, o) == s
    ensures && s.hasSocket && s.sock.sendPending
            && o.sendPoll.SendReady? && 0 < o.sendPoll.transferred <= |s.sock.sendStaged| ==>
              var t, n := Step(s, o), o.sendPoll.transferred;
              && t.sendOffset == s.sendOffset + n && t.sendBytesDone == s.sendBytesDone + n
              && t.outbound == s.outbound && t.recv == s.recv && t.recvBytesTotal == 0
              && if s.sendOffset + n < |s.outbound| then
                   && t.recvFlag.None?
                   && if o.sendIssue.outcome.Refused? then t.fsm == 5 && !t.sendArmed && !t.sock.sendPending
                      else Offering(s, t, o.sendIssue)
                 else
                   && !t.sendArmed && !t.sock.sendPending
                   && if o.recvIssue.outcome.Refused? then t.fsm == 5 && t.recvFlag == Some(false)
                      else Asking(s, t, 0x8000, o.recvIssue)
  {
    if o.sendPoll.SendReady? && 0 < o.sendPoll.transferred <= |s.sock.sendStaged| {
      assert Signed32(o.sendPoll.transferred) == o.sendPoll.transferred;
    }
  }

  /** A report that is negative as a signed number, which no honest system gives, ends the connection. */
  lemma NegativeReportGivesUp(s: Conn, o: Oracle)
    requires s.fsm == 2 && s.hasSocket && s.sock.sendPending
    requires o.sendPoll.SendReady? && 0x8000_0000 <= o.sendPoll.transferred < 0x1_0000_0000
    ensures var t := Step(s, o);
            && t.fsm == 5 && !t.sendArmed && !t.sock.sendPending
            && t.sendOffset == s.sendOffset && t.sendBytesDone == s.sendBytesDone
            && t.outbound == s.outbound && t.recv == s.recv
  {
  }

  /**
   * State 3: every completion, the empty one included, is taken; the chunk is appended and counted,
   * and the room left is asked for unless there is none; anything else changes nothing.
   */
  lemma ReceiveReportIsTaken(s: Conn, o: Oracle)
    requires Inv(s) && s.fsm == 3
    ensures !s.hasSocket || !o.recvPoll.RecvReady? ==> Step(s, o) == s
    ensures s.hasSocket && o.recvPoll.RecvReady? ==>
              var t, chunk := Step(s, o), o.recvPoll.chunk;
              var total := s.recvBytesTotal + |chunk|;
              && t.recv == s.recv + chunk && t.recvBytesTotal == total && t.outbound == s.outbound
              && t.sendOffset == s.sendOffset && t.sendBytesDone == s.sendBytesDone
              && if chunk == [] || total >= 0x8000 then t.fsm == 4 && t.recvFlag == Some(false) && !t.sock.recvPending
                 else if o.recvIssue.outcome.Refused? then t.fsm == 5 && !t.sock.recvPending
                 else Asking(s, t, 0x8000 - total, o.recvIssue)
  {
    if s.hasSocket && o.recvPoll.RecvReady? {
      assert s.recv + [] == s.recv;
    }
  }

  // ---- Exactly which reports keep sending in order ----

  /** A report taken in state 2 names as many bytes as the outstanding send really carried. */
  ghost predicate TrueReport(s: Conn, o: Oracle) {
    s.fsm == 2 && Completes(s, o) ==>
      o.sendDone.Some? && Min(o.sendDone.value, |s.sock.sendStaged|) == o.sendPoll.transferred
  }

  ghost predicate TrueReports(s: Conn, os: seq<Oracle>)
    decreases |os|
  {
    os == [] || (TrueReport(s, os[0]) && TrueReports(Step(s, os[0]), os[1..]))
  }

  /** The bytes that went out in a run are the slice of the outbound string between the two offsets. */
  ghost predicate SentInOrder(s: Conn, os: seq<Oracle>) {
    var t := Run(s, os);
    s.sendOffset <= t.sendOffset <= |s.outbound| && Sent(s, os) == s.outbound[s.sendOffset..t.sendOffset]
  }

  /** At every moment of it. */
  ghost predicate AlwaysInOrder(s: Conn, os: seq<Oracle>) {
    forall k :: 0 <= k <= |os| ==> SentInOrder(s, os[..k])
  }

  lemma OneStepInOrder(s: Conn, o: Oracle)
    requires Inv(s) && Honest(s, o)
    ensures SentInOrder(s, [o]) <==> TrueReport(s, o)
    ensures TrueReport(s, o) ==> SentBy(s, o) == s.outbound[s.sendOffset..Step(s, o).sendOffset]
  {
    StepKeepsInv(s, o);
    assert [o][1..] == [] && Run(s, [o]) == Step(s, o) && Sent(s, [o]) == SentBy(s, o) + [];
    var n := ReportedBy(s, o);
    assert |s.outbound[s.sendOffset..s.sendOffset + n]| == n;
    if s.fsm == 2 && Completes(s, o) && TrueReport(s, o) {
      assert SentBy(s, o) == s.outbound[s.sendOffset..][..n];
    }
  }

  lemma LaterInOrder(s: Conn, os: seq<Oracle>)
    requires Inv(s) && os != [] && Honest(s, os[0]) && TrueReport(s, os[0])
    ensures SentInOrder(s, os) <==> SentInOrder(Step(s, os[0]), os[1..])
  {
    hide Step;
    var t, u := Step(s, os[0]), Run(s, os);
    StepKeepsInv(s, os[0]);
    OneStepInOrder(s, os[0]);
    var first, more := SentBy(s, os[0]), Sent(t, os[1..]);
    assert Sent(s, os) == first + more;
    if SentInOrder(s, os) {
      assert |first + more| == u.sendOffset - s.sendOffset;
      assert more == (first + more)[|first|..] == s.outbound[s.sendOffset..u.sendOffset][|first|..];
    }
  }

  /**
   * Exactly-once sending needs exactly this of the environment: in an honest run the bytes gone out are
   * at every moment the next ones of the outbound string if and only if every report taken names what
   * the outstanding send really carried.
   */
  lemma {:induction false} InOrderIff(s: Conn, os: seq<Oracle>)
    requires Inv(s) && HonestRun(s, os)
    ensures AlwaysInOrder(s, os) <==> TrueReports(s, os)
    decreases |os|
  {
    hide Step;
    hide SentInOrder;
    hide TrueReport;
    if os == [] {
      NothingInOrder(s);
    } else {
      var t := Step(s, os[0]);
      StepKeepsInv(s, os[0]);
      OneStepInOrder(s, os[0]);
      InOrderIff(t, os[1..]);
      assert os[..1] == [os[0]];
      if TrueReport(s, os[0]) {
        NothingInOrder(s);
        forall k | 0 <= k < |os| ensures SentInOrder(s, os[..k + 1]) <==> SentInOrder(t, os[1..][..k]) {
          assert os[..k + 1][1..] == os[1..][..k];
          LaterInOrder(s, os[..k + 1]);
        }
        if AlwaysInOrder(t, os[1..]) {
          forall k | 0 <= k <= |os| ensures SentInOrder(s, os[..k]) {
            if k > 0 {
              assert SentInOrder(t, os[1..][..k - 1]);
            } else {
              assert os[..0] == [];
            }
          }
        }
      }
    }
  }

  lemma NothingInOrder(s: Conn)
    requires Inv(s)
    ensures SentInOrder(s, [])
  {
  }

  /** Every report taken in the run finds the outstanding send completed. */
  ghost predicate ReportsFindDone(s: Conn, os: seq<Oracle>)
    decreases |os|
  {
    os == [] || ((s.fsm == 2 && Completes(s, os[0]) ==> os[0].sendDone.Some?)
                 && ReportsFindDone(Step(s, os[0]), os[1..]))
  }

  ghost predicate AlwaysExclusive(s: Conn, os: seq<Oracle>) {
    forall k :: 0 <= k <= |os| ==> Exclusive(Run(s, os[..k]))
  }

  /** The same for what is in flight: it is exclusive at every moment exactly if those reports do. */
  lemma {:induction false} ExclusiveIff(s: Conn, os: seq<Oracle>)
    requires Inv(s) && Exclusive(s) && HonestRun(s, os)
    ensures AlwaysExclusive(s, os) <==> ReportsFindDone(s, os)
    decreases |os|
  {
    hide Step;
    hide Exclusive;
    if os != [] {
      var t := Step(s, os[0]);
      StepKeepsInv(s, os[0]);
      ExclusiveStepIff(s, os[0]);
      assert os[..1] == [os[0]] && [os[0]][1..] == [] && Run(s, os[..1]) == t;
      if Exclusive(t) {
        ExclusiveIff(t, os[1..]);
        forall k | 0 <= k < |os| ensures Run(s, os[..k + 1]) == Run(t, os[1..][..k]) {
          assert os[..k + 1][1..] == os[1..][..k];
        }
        if AlwaysExclusive(t, os[1..]) {
          forall k | 0 <= k <= |os| ensures Exclusive(Run(s, os[..k])) {
            if k > 0 {
              assert Exclusive(Run(t, os[1..][..k - 1]));
            } else {
              assert os[..0] == [];
            }
          }
        } else {
          var k :| 0 <= k <= |os[1..]| && !Exclusive(Run(t, os[1..][..k]));
          assert !Exclusive(Run(s, os[..k + 1]));
        }
      }
    } else {
      assert forall k :: 0 <= k <= 0 ==> os[..k] == [];
    }
  }

  lemma ExclusiveStepIff(s: Conn, o: Oracle)
    requires Inv(s) && Exclusive(s) && Honest(s, o)
    ensures Exclusive(Step(s, o)) <==> (s.fsm == 2 && Completes(s, o) ==> o.sendDone.Some?)
  {
    if s.fsm == 1 {
      Step1KeepsInv(s, o);
    } else if s.fsm == 2 && Completes(s, o) {
      ReportDecides(s, o);
    } else if s.fsm == 3 {
      Step3KeepsInv(s, o);
    }
  }

  /** Sends found completed in a run. */
  function SendsEnded(s: Conn, os: seq<Oracle>): nat
    decreases |os|
  {
    if os == [] then 0
    else (if s.fsm == 2 && Completes(s, os[0]) then 1 else 0) + SendsEnded(Step(s, os[0]), os[1..])
  }

  /** If reports are completions, the operation counter is the sends that ended and the one in flight. */
  lemma {:induction false} SendsAddUp(s: Conn, os: seq<Oracle>)
    requires Inv(s) && Exclusive(s) && HonestRun(s, os) && ReportsAreCompletions(s, os)
    ensures var t := Run(s, os);
            t.sock.sendOps - s.sock.sendOps == SendsEnded(s, os) + t.sock.sendsInFlight - s.sock.sendsInFlight
    decreases |os|
  {
    if os != [] {
      StepKeepsInv(s, os[0]);
      StepKeepsExclusive(s, os[0]);
      SendsAddUpStep(s, os[0]);
      SendsAddUp(Step(s, os[0]), os[1..]);
    }
  }

  lemma SendsAddUpStep(s: Conn, o: Oracle)
    requires Inv(s) && Exclusive(s) && Honest(s, o) && ReportIsCompletion(s, o)
    ensures var k, l := s.sock, Step(s, o).sock;
            l.sendOps - k.sendOps
              == (if s.fsm == 2 && Completes(s, o) then 1 else 0) + l.sendsInFlight - k.sendsInFlight
  {
    if s.fsm == 1 {
      ConnectAnswers(s, o);
    } else if s.fsm == 2 && Completes(s, o) {
      Step2Taken(s, o);
    }
  }

  lemma {:induction false} DeliveredIsAppended(s: Conn, os: seq<Oracle>)
    requires Inv(s) && HonestRun(s, os)
    ensures Run(s, os).recv == s.recv + Delivered(s, os)
    ensures Run(s, os).recvBytesTotal == s.recvBytesTotal + |Delivered(s, os)|
    decreases |os|
  {
    hide Step;
    if os != [] {
      StepKeepsInv(s, os[0]);
      DeliveredIsAppended(Step(s, os[0]), os[1..]);
    }
  }

  /**
   * The receive buffer is its first contents followed by every completed chunk in order, never more
   * than the cap; while a receive is outstanding it asks for exactly the room left.
   */
  lemma ReceiveAccumulates(s: Conn, os: seq<Oracle>)
    requires Initial(s) && HonestRun(s, os)
    ensures var t := Run(s, os);
            && t.recv == s.recv + Delivered(s, os)
            && t.recvBytesTotal == |Delivered(s, os)| <= RECV_CAP
            && (t.fsm == 3 ==> 0 < t.sock.recvAsked == RECV_CAP - |Delivered(s, os)|)
  {
    RunKeepsInv(s, os);
    DeliveredIsAppended(s, os);
  }

  /** The lengths of the chunks appended to the receive buffer in a run. */
  function ChunkLengths(s: Conn, os: seq<Oracle>): seq<nat>
    decreases |os|
  {
    if os == [] then []
    else
      var more := ChunkLengths(Step(s, os[0]), os[1..]);
      if DeliveredBy(s, os[0]) == [] then more else [|DeliveredBy(s, os[0])|] + more
  }

  lemma GrownByOneStep(l: Ledger, s: Conn, os: seq<Oracle>)
    requires l.shape.Sound() && os != []
    ensures GrownAll(l, ChunkLengths(s, os))
         == GrownAll(Grown(l, |DeliveredBy(s, os[0])|), ChunkLengths(Step(s, os[0]), os[1..]))
  {
    hide Grown;
    hide Step;
    var chunk, more := DeliveredBy(s, os[0]), ChunkLengths(Step(s, os[0]), os[1..]);
    if chunk == [] {
      GrownByNothing(l);
    } else {
      assert ([|chunk|] + more)[1..] == more;
    }
  }

  lemma GrownByNothing(l: Ledger)
    requires l.shape.Sound()
    ensures Grown(l, 0) == l
  {
  }

  lemma {:induction false} ChunkLengthsSum(s: Conn, os: seq<Oracle>)
    ensures Sum(ChunkLengths(s, os)) == |Delivered(s, os)|
    decreases |os|
  {
    if os != [] {
      ChunkLengthsSum(Step(s, os[0]), os[1..]);
      var more := ChunkLengths(Step(s, os[0]), os[1..]);
      assert ([|DeliveredBy(s, os[0])|] + more)[1..] == more;
    }
  }

  /**
   * Growing the receive buffer costs linear work in every run: starting empty, the bytes it copies are
   * at most 32 times its final capacity in growth mode 0 and 8 times in growth mode 1.
   */
  lemma ReceiveGrowthIsLinear(s: Conn, os: seq<Oracle>, mode: int, minCap: int)
    requires Initial(s) && HonestRun(s, os) && (mode == 0 || mode == 1)
    ensures var end := GrownAll(Ledger(Shape(0, 0, mode, minCap), 0), ChunkLengths(s, os));
            end.copied <= (if mode == 0 then 32 else 8) * end.shape.capacity
  {
    var empty, qs := Shape(0, 0, mode, minCap), AppendRequests(0, ChunkLengths(s, os));
    ReceiveAccumulates(s, os);
    ChunkLengthsSum(s, os);
    AppendsCost(Ledger(empty, 0), ChunkLengths(s, os));
    if mode == 0 {
      AppendsStayBelow(0, ChunkLengths(s, os), RECV_CAP);
      AmortisedMode0(empty, qs);
    } else {
      AmortisedMode1(empty, qs);
    }
  }

  /**
   * At any moment of any run at most one operation is outstanding, so the one overlapped block that
   * Send and Recv share is never used twice, and no staging buffer was ever touched while in use.
   */
  lemma OneOperationOutstanding(s: Conn, os: seq<Oracle>)
    requires Initial(s) && HonestRun(s, os) && ReportsAreCompletions(s, os)
    ensures var t := Run(s, os);
            && t.sock.sendsInFlight + t.sock.recvsInFlight <= 1
            && t.sock.clobbers == 0
            && t.sendOffset <= |t.outbound|
            && (t.sock.sendsInFlight == 1 ==> t.fsm == 2 && t.sock.sendStaged == t.outbound[t.sendOffset..])
            && (t.sock.recvsInFlight == 1 ==> t.fsm == 3)
  {
    SentIsNext(s, os);
  }

  /** The reasons for which a connection is given up. */
  ghost predicate GivesUp(s: Conn, o: Oracle) {
    match s.fsm
    case 1 =>
      && s.hasSocket && (o.poll.readable || o.poll.exceptional)
      && if !o.poll.readable && o.poll.socketError != 0
         then s.gateway == 0 || (o.connectError != 0 && o.connectError != WSAEWOULDBLOCK)
         else !(0 <= s.upnpMode <= 1) || s.outbound == [] || o.sendIssue.outcome.Refused?
    case 2 =>
      && Completes(s, o)
      && if s.sendOffset + o.sendPoll.transferred < |s.outbound|
         then o.sendIssue.outcome.Refused?
         else o.recvIssue.outcome.Refused?
    case 3 =>
      && Completes(s, o) && o.recvIssue.outcome.Refused?
      && 0 < |o.recvPoll.chunk| < RECV_CAP - s.recvBytesTotal
    case _ => s.fsm == 5
  }

  /** The receive is over: the peer closed, or the buffer is full. */
  ghost predicate Finishes(s: Conn, o: Oracle) {
    if s.fsm == 3
    then Completes(s, o) && (o.recvPoll.chunk == [] || s.recvBytesTotal + |o.recvPoll.chunk| == RECV_CAP)
    else s.fsm == 4
  }

  /** A connection fails, finishes, and starts receiving for exactly these reasons and no other. */
  lemma StepOutcome(s: Conn, o: Oracle)
    requires Inv(s) && Honest(s, o)
    ensures Step(s, o).fsm == 5 <==> GivesUp(s, o)
    ensures Step(s, o).fsm == 4 <==> Finishes(s, o)
    ensures s.fsm == 2 && Step(s, o).fsm == 3 <==>
              s.fsm == 2 && Completes(s, o) && s.sendOffset + o.sendPoll.transferred == |s.outbound|
              && !o.recvIssue.outcome.Refused?
  {
    if s.fsm == 1 && s.hasSocket && s.sendOffset < |s.outbound| {
      ArmSendEffect(s, o.sendIssue);
    } else if s.fsm == 2 && Completes(s, o) {
      Step2Taken(s, o);
      if Taken(s, o).sendOffset < |s.outbound| {
        ArmSendEffect(Taken(s, o), o.sendIssue);
      }
    }
  }

  /** Room left to send and to receive, plus the states still ahead. */
  function Measure(s: Conn): int {
    |s.outbound| - s.sendOffset + RECV_CAP - s.recvBytesTotal
    + (if s.fsm <= 2 then 2 else if s.fsm == 3 then 1 else 0)
  }

  lemma StepDecreases(s: Conn, o: Oracle)
    requires Inv(s) && Honest(s, o)
    ensures 0 <= Measure(Step(s, o)) <= Measure(s)
    ensures Completes(s, o) ==> Measure(Step(s, o)) < Measure(s)
  {
    StepKeepsInv(s, o);
    if s.fsm == 2 && Completes(s, o) {
      Step2Taken(s, o);
    }
  }

  /** Successful completions cannot go on for ever: each one lowers the measure. */
  lemma {:induction false} CompletionsBounded(s: Conn, os: seq<Oracle>)
    requires Inv(s) && HonestRun(s, os)
    ensures Completions(s, os) <= Measure(s) - Measure(Run(s, os))
    ensures Measure(Run(s, os)) >= 0
    decreases |os|
  {
    if os != [] {
      StepKeepsInv(s, os[0]);
      StepDecreases(s, os[0]);
      CompletionsBounded(Step(s, os[0]), os[1..]);
    } else {
      StepDecreases(s, Quiet());
    }
  }

  // ---- Whether a send is ever seen to complete ----

  /** Nothing happened, nothing is reported. */
  function Quiet(): Oracle {
    Oracle(Poll(false, false, 0), 0, Issue(0, Accepted), SendPending, None, Issue(0, Accepted), Busy)
  }

  /**
   * Leaving or advancing state 2 takes the socket's send-pending flag, which a send the system merely
   * queued clears; and, if the system reports only on blocks it was given, it takes that the polled
   * block was one of them.
   */
  lemma State2MovesIff(s: Conn)
    requires Inv(s) && s.fsm == 2
    ensures (exists o :: Honest(s, o) && Step(s, o) != s) <==> s.hasSocket && s.sock.sendPending
    ensures (exists o :: Honest(s, o) && ReportIsCompletion(s, o) && ReportsOnlyGiven(s, o) && Step(s, o) != s)
       <==> s.hasSocket && s.sock.sendPending && SEND_OVERLAP in s.sock.given
  {
    if s.hasSocket && s.sock.sendPending {
      var o := Quiet().(sendPoll := SendReady(1), sendDone := Some(1));
      assert Honest(s, o) && ReportIsCompletion(s, o) && Completes(s, o);
      StepDecreases(s, o);
    }
  }

  lemma OfferGivesTheOther(s: Conn, issue: Issue)
    requires SEND_OVERLAP !in s.sock.given
    ensures SEND_OVERLAP !in ArmSend(s, issue).0.sock.given
  {
  }

  lemma StepGivesTheOther(s: Conn, o: Oracle)
    requires SEND_OVERLAP !in s.sock.given
    ensures SEND_OVERLAP !in Step(s, o).sock.given
  {
    hide ArmSend;
    OfferGivesTheOther(s, o.sendIssue);
    if s.fsm == 2 && Completes(s, o) && Signed32(o.sendPoll.transferred) >= 0 {
      var n := Signed32(o.sendPoll.transferred);
      var k := SendComplete(s.sock, o.sendPoll, o.sendDone);
      OfferGivesTheOther(s.(sock := k, sendArmed := false, sendOffset := s.sendOffset + n,
                            sendBytesDone := s.sendBytesDone + n), o.sendIssue);
    }
  }

  /** The polled block never is: every step issues on the other one. */
  lemma {:induction false} PolledBlockNeverGiven(s: Conn, os: seq<Oracle>)
    requires SEND_OVERLAP !in s.sock.given
    ensures SEND_OVERLAP !in Run(s, os).sock.given
    decreases |os|
  {
    hide Step;
    if os != [] {
      StepGivesTheOther(s, os[0]);
      PolledBlockNeverGiven(Step(s, os[0]), os[1..]);
    }
  }

  /** So, with a system that reports only on blocks it was given, no run leaves state 2. */
  lemma {:induction false} NoRunLeavesState2(s: Conn, os: seq<Oracle>)
    requires s.fsm == 2 && SEND_OVERLAP !in s.sock.given && AllReportsOnlyGiven(s, os)
    ensures Run(s, os) == s
    decreases |os|
  {
    if os != [] {
      NoRunLeavesState2(s, os[1..]);
    }
  }

  /** And no connection gets past it: it waits, is stuck after its first offer, or was given up. */
  lemma {:induction false} NeverPastState2(s: Conn, os: seq<Oracle>)
    requires s.fsm == 1 && SEND_OVERLAP !in s.sock.given && AllReportsOnlyGiven(s, os)
    ensures Run(s, os).fsm in {1, 2, 5}
    ensures Run(s, os).sendOffset == s.sendOffset && Run(s, os).recv == s.recv
    ensures Sent(s, os) == [] && Delivered(s, os) == []
    decreases |os|
  {
    if os != [] {
      var t := Step(s, os[0]);
      StepGivesTheOther(s, os[0]);
      if t.fsm == 1 {
        NeverPastState2(t, os[1..]);
      } else if t.fsm == 2 {
        NoRunLeavesState2(t, os[1..]);
        NothingWhileStill(t, os[1..]);
      } else {
        NothingWhileStill(t, os[1..]);
      }
    }
  }

  /** A connection that is given up, or waits for a report that cannot come, exchanges nothing. */
  lemma {:induction false} NothingWhileStill(t: Conn, os: seq<Oracle>)
    requires t.fsm == 5 || (t.fsm == 2 && SEND_OVERLAP !in t.sock.given && AllReportsOnlyGiven(t, os))
    ensures Run(t, os) == t && Sent(t, os) == [] && Delivered(t, os) == []
    decreases |os|
  {
    if os != [] {
      NothingWhileStill(t, os[1..]);
    }
  }

  lemma {:induction false} StuckWithoutFlag(s: Conn, os: seq<Oracle>)
    requires s.fsm == 2 && !s.sock.sendPending
    ensures Run(s, os) == s
    decreases |os|
  {
    if os != [] {
      StuckWithoutFlag(s, os[1..]);
    }
  }

  /** A step that offers a slice sets the flag exactly if the system accepts the slice at once. */
  lemma OfferDecides(s: Conn, o: Oracle)
    requires Inv(s) && Honest(s, o) && Step(s, o).fsm == 2 && (s.fsm == 1 || Completes(s, o))
    ensures Step(s, o).sock.sendPending <==> o.sendIssue.outcome.Accepted?
    ensures Step(s, o).sock.sendPending || o.sendIssue.outcome.Queued?
  {
  }

  /** So once the system queues a slice, no answers whatsoever, honest or not, change the connection. */
  lemma QueuedSendIsStuck(s: Conn, o: Oracle, os: seq<Oracle>)
    requires Inv(s) && Honest(s, o) && Step(s, o).fsm == 2 && (s.fsm == 1 || Completes(s, o))
    requires o.sendIssue.outcome.Queued?
    ensures Run(Step(s, o), os) == Step(s, o)
  {
    OfferDecides(s, o);
    StuckWithoutFlag(Step(s, o), os);
  }

  /** That state is within reach: a connect that goes through and a first slice that is queued. */
  lemma QueuedSendIsReached(s: Conn, o: Oracle, os: seq<Oracle>)
    requires Initial(s) && s.hasSocket && 0 <= s.upnpMode <= 1 && s.outbound != []
    requires o.poll.readable && o.sendIssue.outcome.Queued? && Honest(s, o)
    ensures Run(s, [o] + os).fsm == 2 && Run(s, [o] + os) == Run(s, [o])
    ensures Run(s, [o] + os).sock.sendsInFlight == 1 && Run(s, [o] + os).sock.sendStaged == s.outbound
  {
    InitialInv(s);
    ArmSendEffect(s, o.sendIssue);
    assert ([o] + os)[1..] == os && [o][1..] == [];
    QueuedSendIsStuck(s, o, os);
  }
}
