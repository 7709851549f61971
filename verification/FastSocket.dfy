/**
 * The overlapped worker socket: what Send, Recv and the two completion polls do to the
 * pending flags and the staging buffers. The operating system's answers are parameters.
 */
module FastSocket {
  import opened Bytes
  import opened Growable

  const WSAEINVAL := 10022
  const WSAEINTR := 10004
  const IO_PENDING := 997

  // The two OVERLAPPED blocks of a socket. Send and Recv both hand the system the first; receives are
  // polled there too, but sends are polled on the second.
  const OVERLAPPED := 116
  const SEND_OVERLAP := 168

  /** Errors that end the issue loop: neither "interrupted" nor "pending". */
  type IssueError = e: int | e != 0 && e != WSAEINTR && e != IO_PENDING witness WSAEINVAL

  datatype IssueOutcome = Accepted | Queued | Refused(error: IssueError)

  /** One WSASend or WSARecv: the number of interrupted attempts, then the answer that counts. */
  datatype Issue = Issue(interrupts: nat, outcome: IssueOutcome)

  /** The answer of the overlapped-result query on the block at +168. */
  datatype SendPoll = SendReady(transferred: nat) | SendPending | SendFailed(error: int)

  /** The answer on the block at +116, for a receive; `Busy` is the in-flight tag found in that block. */
  datatype RecvPoll = Busy | RecvReady(chunk: seq<byte>) | RecvPending | RecvFailed(error: int)

  /** The socket as a value. The last four fields record events and exist only to state safety. */
  datatype Sock = Sock(
    sendPending: bool,
    sendWarning: bool,
    sendOps: nat,
    sendStaged: seq<byte>,   // live bytes of the send staging buffer
    recvPending: bool,
    recvAsked: nat,          // live size of the receive staging buffer
    retries: nat,
    sendsInFlight: nat,      // sends the system took, until one is found completed when a report is taken
    recvsInFlight: nat,
    clobbers: nat,           // staging buffers resized or rewritten while in flight
    given: set<nat>          // the OVERLAPPED blocks the system was ever given
  )

  function Clobbered(busy: nat): nat {
    if busy > 0 then 1 else 0
  }

  /** The issue loop of a send: only an answer given at once marks it for polling. */
  function Offered(k: Sock, issue: Issue): (Sock, int) {
    var tried := k.(sendWarning := true, retries := k.retries + issue.interrupts, given := k.given + {OVERLAPPED});
    match issue.outcome
    case Accepted =>
      (tried.(sendPending := true, sendOps := k.sendOps + 1, sendsInFlight := k.sendsInFlight + 1), 0)
    case Queued =>
      (tried.(sendPending := false, sendOps := k.sendOps + 1, sendsInFlight := k.sendsInFlight + 1), 0)
    case Refused(e) => (tried.(sendWarning := false), e as int)
  }

  function Send(k: Sock, bytes: seq<byte>, issue: Issue): (Sock, int) {
    if bytes == [] then (k, WSAEINVAL)
    else Offered(k.(sendStaged := bytes, clobbers := k.clobbers + Clobbered(k.sendsInFlight)), issue)
  }

  /** The issue loop of a receive. */
  function Asked(k: Sock, issue: Issue): (Sock, int) {
    var tried := k.(recvPending := true, retries := k.retries + issue.interrupts, given := k.given + {OVERLAPPED});
    match issue.outcome
    case Accepted => (tried.(recvsInFlight := k.recvsInFlight + 1), 0)
    case Queued => (tried.(recvsInFlight := k.recvsInFlight + 1), 0)
    case Refused(e) => (tried.(recvPending := false), e as int)
  }

  function Recv(k: Sock, len: int, issue: Issue): (Sock, int) {
    if len <= 0 then (k, WSAEINVAL)
    else Asked(k.(recvAsked := len, clobbers := k.clobbers + Clobbered(k.recvsInFlight)), issue)
  }

  /** Bytes of a reported send completion; None when the poll reports nothing. */
  function SendReported(k: Sock, poll: SendPoll): Option<nat> {
    if k.sendPending && poll.SendReady? && poll.transferred > 0 then Some(poll.transferred) else None
  }

  /** A report clears the flag; the outstanding send is over only if it has completed, as `done` says. */
  function SendComplete(k: Sock, poll: SendPoll, done: Option<nat>): Sock {
    if SendReported(k, poll).None? then k
    else k.(sendPending := false, sendsInFlight := StillInFlight(k.sendsInFlight, done))
  }

  function StillInFlight(sends: nat, done: Option<nat>): nat {
    if done.Some? && sends > 0 then sends - 1 else sends
  }

  /** The chunk of a reported receive completion; None when the poll reports nothing. */
  function RecvReported(k: Sock, poll: RecvPoll): Option<seq<byte>> {
    if k.recvPending && poll.RecvReady? then Some(poll.chunk) else None
  }

  function RecvComplete(k: Sock, poll: RecvPoll): Sock {
    if RecvReported(k, poll).None? then k
    else k.(recvPending := false, recvsInFlight := Max(k.recvsInFlight - 1, 0))
  }

  // ---- What each answer makes of the socket ----

  /** Nothing about receiving changed. */
  ghost predicate RecvSideSame(k: Sock, l: Sock) {
    l.recvPending == k.recvPending && l.recvAsked == k.recvAsked && l.recvsInFlight == k.recvsInFlight
  }

  ghost predicate SendSideSame(k: Sock, l: Sock) {
    && l.sendPending == k.sendPending && l.sendWarning == k.sendWarning && l.sendOps == k.sendOps
    && l.sendStaged == k.sendStaged && l.sendsInFlight == k.sendsInFlight
  }

  /** One operation was tried on the block at +116, on a buffer that `busy` operations were using. */
  ghost predicate Tried(k: Sock, l: Sock, issue: Issue, busy: nat) {
    && l.given == k.given + {116} && l.retries == k.retries + issue.interrupts
    && l.clobbers == k.clobbers + (if busy == 0 then 0 else 1)
  }

  /**
   * A send: refused for want of bytes, refused by the system, or taken; only one that is taken counts, and
   * only one accepted at once is marked for polling.
   */
  lemma SendAnswers(k: Sock, bytes: seq<byte>, issue: Issue)
    ensures var (l, err) := Send(k, bytes, issue);
            && (bytes == [] ==> l == k && err == 10022)
            && (bytes != [] ==>
                  && l.sendStaged == bytes && Tried(k, l, issue, k.sendsInFlight) && RecvSideSame(k, l)
                  && if issue.outcome.Refused?
                     then && err == issue.outcome.error && !l.sendWarning && l.sendPending == k.sendPending
                          && l.sendOps == k.sendOps && l.sendsInFlight == k.sendsInFlight
                     else && err == 0 && l.sendWarning && (l.sendPending <==> issue.outcome.Accepted?)
                          && l.sendOps == k.sendOps + 1 && l.sendsInFlight == k.sendsInFlight + 1)
  {
  }

  /** A receive: refused for want of room, refused by the system, or taken and then pending. */
  lemma RecvAnswers(k: Sock, len: int, issue: Issue)
    ensures var (l, err) := Recv(k, len, issue);
            && (len <= 0 ==> l == k && err == 10022)
            && (len > 0 ==>
                  && l.recvAsked == len && Tried(k, l, issue, k.recvsInFlight) && SendSideSame(k, l)
                  && if issue.outcome.Refused?
                     then err == issue.outcome.error && !l.recvPending && l.recvsInFlight == k.recvsInFlight
                     else err == 0 && l.recvPending && l.recvsInFlight == k.recvsInFlight + 1)
  {
  }

  /** The query on the send: reported are the bytes of a marked send, if there are any, and that once. */
  lemma SendPollAnswers(k: Sock, poll: SendPoll, done: Option<nat>)
    ensures var l := SendComplete(k, poll, done);
            if k.sendPending && poll.SendReady? && poll.transferred > 0
            then && SendReported(k, poll) == Some(poll.transferred)
                 && l == k.(sendPending := false, sendsInFlight := l.sendsInFlight)
                 && l.sendsInFlight == k.sendsInFlight - (if done.Some? && k.sendsInFlight > 0 then 1 else 0)
                 && SendReported(l, poll).None?
            else SendReported(k, poll).None? && l == k
  {
  }

  /** The query on the receive: reported is the chunk of a pending one, the empty chunk included. */
  lemma RecvPollAnswers(k: Sock, poll: RecvPoll)
    ensures var l := RecvComplete(k, poll);
            if k.recvPending && poll.RecvReady?
            then && RecvReported(k, poll) == Some(poll.chunk)
                 && l == k.(recvPending := false, recvsInFlight := l.recvsInFlight)
                 && l.recvsInFlight == (if k.recvsInFlight > 0 then k.recvsInFlight - 1 else 0)
                 && RecvReported(l, poll).None?
            else RecvReported(k, poll).None? && l == k
  {
  }

  class CFastSocket {
    var sendPending: bool
    var sendWarning: bool
    var sendOps: nat
    const sendStaging: GrowableBuffer
    var recvPending: bool
    const recvStaging: GrowableBuffer
    var retries: nat
    ghost var sendsInFlight: nat
    ghost var recvsInFlight: nat
    ghost var clobbers: nat
    ghost var given: set<nat>

    /** The two staging buffers share no storage; their growth modes are among the three accepted. */
    ghost predicate Valid()
      reads this, sendStaging, recvStaging
    {
      && sendStaging != recvStaging
      && (sendStaging.data == null || sendStaging.data != recvStaging.data)
      && sendStaging.Valid() && 0 <= sendStaging.growthMode <= 2
      && recvStaging.Valid() && 0 <= recvStaging.growthMode <= 2
    }

    ghost function State(): Sock
      requires Valid()
      reads this, sendStaging, recvStaging, sendStaging.data
    {
      Sock(sendPending, sendWarning, sendOps, sendStaging.Contents(), recvPending, recvStaging.size,
           retries, sendsInFlight, recvsInFlight, clobbers, given)
    }

    constructor (sendMode: int, recvMode: int, minCap: int)
      requires 0 <= sendMode <= 2 && 0 <= recvMode <= 2
      ensures Valid() && fresh(sendStaging) && fresh(recvStaging)
      ensures sendStaging.data == null && recvStaging.data == null
      ensures State() == Sock(false, false, 0, [], false, 0, 0, 0, 0, 0, {})
    {
      sendPending, sendWarning, sendOps, recvPending := false, false, 0, false;
      retries, sendsInFlight, recvsInFlight, clobbers, given := 0, 0, 0, 0, {};
      sendStaging := new GrowableBuffer(sendMode, minCap);
      recvStaging := new GrowableBuffer(recvMode, minCap);
    }

    /** The retry loop around an issue call: one tally per interrupted attempt. */
    method RetryInterrupted(interrupts: nat)
      modifies `retries
      ensures retries == old(retries) + interrupts
    {
      var attempt := 0;
      while attempt < interrupts
        invariant 0 <= attempt <= interrupts && retries == old(retries) + attempt
      {
        retries := retries + 1;
        attempt := attempt + 1;
      }
    }

    method StageSend(bytes: seq<byte>)
      requires Valid() && bytes != []
      modifies sendStaging, sendStaging.data
      ensures Valid()
      ensures sendStaging.Contents() == bytes
      ensures sendStaging.data == old(sendStaging.data) || fresh(sendStaging.data)
    {
      var grown := sendStaging.EnsureSize(|bytes|, true);
      var staging := sendStaging.data;
      var i := 0;
      while i < |bytes|
        modifies staging
        invariant 0 <= i <= |bytes|
        invariant staging[..i] == bytes[..i]
      {
        staging[i] := bytes[i];
        i := i + 1;
      }
    }

    /** Stage the bytes, then offer them to the system. */
    method SendBytes(bytes: seq<byte>, issue: Issue) returns (err: int)
      requires Valid()
      modifies this, sendStaging, sendStaging.data
      ensures Valid()
      ensures sendStaging.data == old(sendStaging.data) || fresh(sendStaging.data)
      ensures (State(), err) == Send(old(State()), bytes, issue)
    {
      hide Offered;
      var len := |bytes|;
      if len <= 0 {
        return WSAEINVAL;
      }
      clobbers := clobbers + Clobbered(sendsInFlight);
      StageSend(bytes);
      err := OfferSend(issue);
    }

    /** Offer what is staged until the system is not interrupted. */
    method OfferSend(issue: Issue) returns (err: int)
      requires Valid()
      modifies this
      ensures Valid() && (State(), err) == Offered(old(State()), issue)
    {
      sendWarning, given := true, given + {OVERLAPPED};
      RetryInterrupted(issue.interrupts);
      match issue.outcome {
        case Accepted =>
          sendPending, sendOps, sendsInFlight := true, sendOps + 1, sendsInFlight + 1;
          return 0;
        case Queued =>
          sendPending, sendOps, sendsInFlight := false, sendOps + 1, sendsInFlight + 1;
          return 0;
        case Refused(e) =>
          sendWarning := false;
          return e;
      }
    }

    method RecvBytes(len: int, issue: Issue) returns (err: int)
      requires Valid()
      modifies this, recvStaging
      ensures Valid()
      ensures recvStaging.data == old(recvStaging.data) || fresh(recvStaging.data)
      ensures (State(), err) == Recv(old(State()), len, issue)
    {
      hide Asked;
      if len <= 0 {
        return WSAEINVAL;
      }
      clobbers := clobbers + Clobbered(recvsInFlight);
      var grown := recvStaging.EnsureSize(len, true);
      err := AskRecv(issue);
    }

    method AskRecv(issue: Issue) returns (err: int)
      requires Valid()
      modifies this
      ensures Valid() && (State(), err) == Asked(old(State()), issue)
    {
      recvPending, given := true, given + {OVERLAPPED};
      RetryInterrupted(issue.interrupts);
      match issue.outcome {
        case Accepted =>
          recvsInFlight := recvsInFlight + 1;
          return 0;
        case Queued =>
          recvsInFlight := recvsInFlight + 1;
          return 0;
        case Refused(e) =>
          recvPending := false;
          return e;
      }
    }

    /** Ask the system about the block at +168; `done` is what has become of the outstanding send. */
    method PollSend(poll: SendPoll, ghost done: Option<nat>) returns (reported: Option<nat>)
      requires Valid()
      modifies this
      ensures Valid()
      ensures State() == SendComplete(old(State()), poll, done)
      ensures reported == SendReported(old(State()), poll)
    {
      if !sendPending || !poll.SendReady? || poll.transferred == 0 {
        return None;
      }
      sendPending := false;
      sendsInFlight := StillInFlight(sendsInFlight, done);
      return Some(poll.transferred);
    }

    /**
     * A reported completion leaves the chunk at the front of the staging buffer. The system never
     * transfers more than it was asked for.
     */
    method PollRecv(poll: RecvPoll) returns (done: Option<nat>)
      requires Valid()
      requires poll.RecvReady? ==> |poll.chunk| <= State().recvAsked
      modifies this, recvStaging.data
      ensures Valid()
      ensures State() == RecvComplete(old(State()), poll)
      ensures done.Some? <==> RecvReported(old(State()), poll).Some?
      ensures done.Some? ==> done.value == |poll.chunk|
      ensures done.Some? && poll.chunk != [] ==>
                recvStaging.data != null && |poll.chunk| <= recvStaging.data.Length
                && recvStaging.data[..done.value] == poll.chunk
    {
      if !recvPending || !poll.RecvReady? {
        return None;
      }
      var chunk := poll.chunk;
      if chunk != [] {
        var staging := recvStaging.data;
        var i := 0;
        while i < |chunk|
          modifies staging
          invariant 0 <= i <= |chunk|
          invariant staging[..i] == chunk[..i]
        {
          staging[i] := chunk[i];
          i := i + 1;
        }
      }
      recvPending := false;
      recvsInFlight := Max(recvsInFlight - 1, 0);
      return Some(|chunk|);
    }
  }
}
