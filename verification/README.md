# Verified model of the ProudNet client pieces

TheGame.dll reimplements parts of a ProudNet client inside a running game. This project models the parts
that are algorithms or state machines in their own right and proves what they guarantee over every input
and every run:

- the connection state machine, its overlapped socket and its growable buffers (`GrowableBuffer.dfy`,
  `FastSocket.dfy`, `Connection.dfy`, `ConnectionNode.dfy`);
- the TCP frame writer and the resynchronising frame scanner (`FrameCodec.dfy`, `FrameScan.dfy`);
- the hook manager that patches code in memory (`HookManager.dfy`);
- the navigation command ring and the shard-select flow, pump by pump and operation by operation
  (`NavCommands.dfy`, `Nav.dfy`, `NavSteps.dfy`);
- the line splitter of the command pipe and the bounded JSON escaper (`HandlerPipe.dfy`, `JsonEscape.dfy`);
- the copy-on-write string (`CowString.dfy`);
- message dispatch through nested wrappers (`Dispatch.dfy`).

`Bytes.dfy` holds bytes and little-endian words. Every file follows one plan. What a component does is first
written as a function on values (one step, one operation, one parse) and the results are lemmas about whole
runs of it. Next to it stands the component in the program's own form - a class with the same fields, loops
and in-place writes - whose methods are proved against those functions, or directly against what the caller
sees. Answers of the operating system and of game code (select, WSASend, WSARecv, completions, memory writes,
the pipe, the scene, the unwrap functions) are parameters, so every result holds for all of them.

The assumptions on the environment are: a completion never transfers more than was asked for (`Honest`);
a failed memory write changes nothing; code windows of different hook stubs do not overlap, except where a
result is about stubs that do; the function run under an invoked hook touches memory only through the manager;
in `Nav.dfy` teardown and pumps do not overlap, which `NavSteps.dfy` does without; a game function called with a
received message changes that message only, the peer test changes nothing, and restoring a read position moves
nothing else.

One assumption is a named predicate because the code gives no ground for it. Sends are issued on the OVERLAPPED
block at +116 (src/ProudNet/FastSocket.cpp:256-257) and polled on the one at +168 (191-192), which is never given
to the system. `ReportIsCompletion` says that what is reported on +168 is nevertheless the completion of the
outstanding send; it is enough for the results about what went out and what is in flight. What these need exactly
is proved, too: the bytes gone out are at every moment the next ones of the outbound string if and only if every
report taken names as many bytes as the outstanding send carried (`InOrderIff`), and what is in flight is at every
moment what the state waits for, on untouched staging, if and only if every report taken finds that send completed
(`ExclusiveIff`). `ReportsOnlyGiven` is the opposite assumption, that the system reports only on blocks it
was given; under it no connection gets past state 2 (`NoRunLeavesState2`, `NeverPastState2`). All other results
about the connection hold without either.

Where the code does not do what one would expect, the exact condition is proved instead:

- a send takes a set flag and a report on a block that was given to the system to move a connection out of
  state 2; the code clears the flag for queued sends and never gives the system that block: `State2MovesIff`,
  `QueuedSendIsStuck`, `QueuedSendIsReached`, `NeverPastState2`;
- invoking a stub that was never hooked damages its code on the next restore unless the saved bytes happened to
  be right, and wipes it if nothing was ever saved: `UnsavedInvokeIff`, `FirstInvokeWipes` (`invoke_hooked` has
  no caller in the repository);
- restoring everything with success gives the memory back after every legal run exactly if no two windows
  overlap (for code that does not start with a jump already): `TrustedIffDisjoint`. Two stubs that do, hooked one
  after the other, are restored in the same order, which leaves the first one's jump in place whatever else is
  registered; the installed list has such a pair (src/hooks/str/string.cpp:172-188): `OverlapStaysPatched`,
  `SharedWindowStaysPatched`;
- of a nest of messages that fails only the innermost is rewound, and not even that one if unwrapping it failed:
  `FailureRewindsIff`, `OnlyInnermostIsRewound`;
- a pump that begins inside the send of 0x3EB2 or 0x3F40 (the message hook pumps), or a teardown beside a pump,
  breaks the order and the number of messages; one that begins inside the scene request, or a teardown between
  pumps, does not: `ProtocolIff`;
- every append to a string that has a body leaves that body counted once too often, so it is never freed; no other
  operation does: `Accounts` in the contracts, `UseAll`, `DestroyAll`;
- `TrimLeft` does not trim characters from 0x80 on: `TrimStripsIff`;
- of the three growth modes only mode 1 copies linearly much in every run; mode 0 does up to the receive cap:
  `LinearIffMode1`, `Mode2IsQuadratic`;
- exactly junk that holds a header can hide or distort what comes behind it: `CleanIffHidesNothing`, with
  `DirtyJunkHidesFrames` as an instance where nothing of the frame is left;
- on the 32-bit target the frame scanner takes the frames proved here exactly if it meets no length field with
  which offset plus wire size leaves 32 bits: `ScanIsExactIff`, with the length field F9 FF FF FF as an instance
  (`ZeroWire`) and a condition on the chunk that excludes it (`NoneMetIfShort`).

Where code and documentation disagree the model follows the code: the magic goes out as 13 57
(include/game/net/proud_frame.hpp:36-37) although docs/proudnet/protocol.md:43 prints the two bytes the other
way round; sends are issued on the block at +116 although docs/proudnet-sdk-crossmap.md:62-63 has that one for
receives and the one at 0xA8 (+168) for sends; types 7, 14, 18, 20, 22, 27 and 28 count as processed
(include/ProudNet/MessageType.hpp:80-95) although docs/proudnet/message-dispatch.md:42-63 lists them as
unhandled; type 35 is behind the peer guard (src/ProudNet/ProcessProudNetLayer.cpp:282-288) although that table
does not say so.

## Model

| member | source | states |
|---|---|---|
| Growable.Slack | src/ProudNet/GrowableBuffer.cpp:46-67 | the spare room is a fixed fraction of the live size: over 1/8 in mode 1, over 1/32 in mode 0 up to the receive cap, none in mode 2; other modes are rejected |
| Growable.CalcCapacity | src/ProudNet/GrowableBuffer.cpp:46-73 | a new capacity holds the request and the configured minimum; exactly the modes 0 to 2 have one |
| Growable.SlackIs | src/ProudNet/GrowableBuffer.cpp:46-67 | the spare room is an eighth of the size rounded down, at least 4 and at most 1024 in mode 0, at least 64 in mode 1, none in mode 2 |
| Growable.CapacityIsLeast | src/ProudNet/GrowableBuffer.cpp:46-73 | a new capacity is the least number that holds the request with the spare room of the old size, and the configured minimum |
| Growable.ResizeAnswers | src/ProudNet/GrowableBuffer.cpp:75-139 | a resize throws exactly for a negative size, a rejected mode or no memory where it must grow, and then changes nothing; otherwise the size is as asked, and only growing makes a new block and copies |
| Growable.AmortisedMode1 | src/ProudNet/GrowableBuffer.cpp:59-72 | over any run of resizes, failures included, bytes copied are at most 8 times the capacity gained |
| Growable.AmortisedMode0 | src/ProudNet/GrowableBuffer.cpp:51-58 | the same with factor 32 while no request exceeds 0x8000 |
| Growable.Mode2IsQuadratic | src/ProudNet/GrowableBuffer.cpp:62-63 | without slack, growing byte by byte from n to m copies exactly (m(m-1) - n(n-1))/2 bytes |
| Growable.LinearIffMode1 | src/ProudNet/GrowableBuffer.cpp:46-73 | some constant bounds the bytes copied in every run from the empty buffer, relative to the final capacity, exactly in growth mode 1 of the three |
| Growable.AppendsCost | src/ProudNet/GrowableBuffer.cpp:104-139 | what a buffer has copied after any sequence of appends is the cost of the resizes they ask for |
| Growable.GrowableBuffer.EnsureSize | src/ProudNet/GrowableBuffer.cpp:75-102 | resizing keeps the common prefix of the contents through reallocation, and changes nothing when it throws |
| Growable.GrowableBuffer.EnsureCapacityCopy | src/ProudNet/GrowableBuffer.cpp:104-139 | the same for the copying resize, which moves exactly the live bytes and only when it replaces a block |
| Growable.GrowableBuffer.Append | src/ProudNet/RecvAppend.cpp:47-64 | contents become contents followed by the source, in all growth modes; a negative length throws and a failed growth leaves the buffer as it was |
| FastSocket.CFastSocket.StageSend | src/ProudNet/FastSocket.cpp:242-249 | the staging buffer holds exactly the bytes to send, whatever it held before |
| FastSocket.CFastSocket.SendBytes | src/ProudNet/FastSocket.cpp:227-289 | what one send does to flags, counters, staging and the blocks given to the system, for every sequence of interruptions and final answer; only an immediately accepted send is marked for polling |
| FastSocket.CFastSocket.OfferSend | src/ProudNet/FastSocket.cpp:255-288 | the issue loop alone, on the block at +116 |
| FastSocket.CFastSocket.RecvBytes | src/ProudNet/FastSocket.cpp:128-181 | what one receive request does, and that it asks for exactly the given length |
| FastSocket.CFastSocket.PollSend | src/ProudNet/FastSocket.cpp:183-225 | a report on the block at +168 is passed on once, only for a marked send and only if it moved bytes; the send itself, issued on +116, is over only if it really has completed |
| FastSocket.CFastSocket.PollRecv | src/ProudNet/FastSocket.cpp:78-126 | a completion is reported once, with the transferred bytes at the front of the staging buffer |
| FastSocket.SendAnswers | src/ProudNet/FastSocket.cpp:227-289 | every outcome of a send: refused for want of bytes, refused by the system, queued or accepted, with flags, counters, staging and blocks given |
| FastSocket.RecvAnswers | src/ProudNet/FastSocket.cpp:128-181 | the same for a receive |
| FastSocket.SendPollAnswers | src/ProudNet/FastSocket.cpp:183-225 | every report of bytes on a marked send is passed on, whole or partial, once; anything else changes nothing |
| FastSocket.RecvPollAnswers | src/ProudNet/FastSocket.cpp:78-126 | every completion of a pending receive is passed on, the empty one included, once |
| Connection.Step1KeepsInv | src/ProudNet/ConnectionNode.cpp:110-154 | state 1 keeps the connection invariant, and whatever is in flight exclusive, whatever select, connect and the send answer |
| Connection.Step2KeepsInv | src/ProudNet/ConnectionNode.cpp:156-197 | state 2 keeps the connection invariant for every honest answer, a report that is no completion included |
| Connection.StepKeepsInv | src/ProudNet/ConnectionNode.cpp:110-242 | every honest step keeps the invariant; the offset moves by exactly the bytes reported, total and receive buffer by exactly the chunk delivered |
| Connection.ConnectAnswers | src/ProudNet/ConnectionNode.cpp:110-154 | what every answer makes of a connection in state 1: waiting, retrying, given up, or offering the whole outbound string |
| Connection.SendReportIsTaken | src/ProudNet/ConnectionNode.cpp:156-197 | in state 2 every report of n > 0 bytes on a marked send, partial ones included, moves offset and counter by n and is followed by an offer of the rest or the first receive; anything else changes nothing |
| Connection.NegativeReportGivesUp | src/ProudNet/ConnectionNode.cpp:169-176 | a report that is negative as a signed number gives the connection up and counts nothing |
| Connection.ReceiveReportIsTaken | src/ProudNet/ConnectionNode.cpp:199-242 | in state 3 every completion is taken: its chunk is appended and counted, and the room left is asked for unless there is none or the chunk is empty; anything else changes nothing |
| Connection.SendsAddUp | src/ProudNet/FastSocket.cpp:262-278 | if reports are completions, the operation counter grows by the sends that ended and the one in flight |
| Connection.ReportDecides | src/ProudNet/FastSocket.cpp:183-225 | after a report is taken, what is in flight is what the new state waits for, on untouched staging, exactly if the outstanding send really had completed |
| Connection.StepKeepsExclusive | src/ProudNet/ConnectionNode.cpp:156-197 | if reports are completions, what is in flight stays exclusive and the bytes a completion carried are the next bytes of the outbound string |
| Connection.SentIsNext | src/ProudNet/ConnectionNode.cpp:156-186 | if reports are completions: from any point of any run, the bytes completed are the slice of the outbound string between the two offsets |
| Connection.ExactlyOnceSending | src/ProudNet/ConnectionNode.cpp:156-197 | if reports are completions: for every sequence of partial completions the bytes gone out are the outbound string up to the offset, which equals the bytes-done counter; states 3 and 4 are reached only after the whole string went out once and in order |
| Connection.InOrderIff | src/ProudNet/ConnectionNode.cpp:156-197 | in every honest run the bytes gone out are at each moment the next ones of the outbound string exactly if every report taken names as many bytes as the outstanding send carried |
| Connection.ExclusiveIff | src/ProudNet/FastSocket.cpp:183-289 | in every honest run what is in flight is at each moment what the state waits for, on untouched staging, exactly if every report taken finds the outstanding send completed |
| Connection.DeliveredIsAppended | src/ProudNet/ConnectionNode.cpp:222-226 | every completed chunk ends up in the receive buffer, in order, and in the running total |
| Connection.ReceiveAccumulates | src/ProudNet/ConnectionNode.cpp:199-242 | the receive buffer is its first contents followed by all chunks, never more than 0x8000 bytes of them, and an outstanding receive asks for exactly the room left |
| Connection.ReceiveGrowthIsLinear | src/ProudNet/ConnectionNode.cpp:222-233 | a buffer that starts empty and appends the chunks of any run copies at most 32 (mode 0) or 8 (mode 1) times its final capacity; Drive shows that the node's buffer is that buffer |
| Connection.OneOperationOutstanding | src/ProudNet/FastSocket.cpp:154-181 | if reports are completions: at every moment at most one operation is in flight, so the block at +116 that both are issued on is never shared, and no staging buffer was resized or rewritten while in use |
| Connection.StepOutcome | src/ProudNet/ConnectionNode.cpp:110-242 | a connection is given up, finished, or moved on to receiving for exactly the listed reasons |
| Connection.StepDecreases | src/ProudNet/ConnectionNode.cpp:178-233 | bytes left to send plus room left to receive plus states ahead never grows and falls with each completion |
| Connection.CompletionsBounded | src/ProudNet/ConnectionNode.cpp:156-242 | hence the number of completions in any run is bounded by that measure |
| Connection.State2MovesIff | src/ProudNet/FastSocket.cpp:183-207 | some honest answers move a connection in state 2 exactly if its send was accepted at once; if the system reports only on blocks it was given, exactly if moreover the polled block was given to it |
| Connection.PolledBlockNeverGiven | src/ProudNet/FastSocket.cpp:191-192 | no run of the code ever gives the system the block that send_complete polls |
| Connection.NoRunLeavesState2 | src/ProudNet/FastSocket.cpp:183-225 | with a system that reports only on blocks it was given, no run whatsoever leaves state 2 |
| Connection.NeverPastState2 | src/ProudNet/ConnectionNode.cpp:110-197 | so from state 1 every run ends in state 1, 2 or 5, with nothing counted as sent and nothing received |
| Connection.OfferDecides | src/ProudNet/FastSocket.cpp:262-289 | a step that offers a slice leaves the polled flag set exactly if the system accepted the slice at once; otherwise the slice was queued |
| Connection.QueuedSendIsStuck | src/ProudNet/FastSocket.cpp:273-278 | once a slice is queued no run whatsoever changes the connection |
| Connection.QueuedSendIsReached | src/ProudNet/ConnectionNode.cpp:110-154 | every connection with something to send reaches that state when its connect goes through and its first slice is queued |
| ConnectionNode.ConnectionNode.constructor | include/ProudNet/Layout.hpp:107-123 | the zeroed block with its configuration words stands for the initial machine |
| ConnectionNode.ConnectionNode.GetOffset | include/ProudNet/ConnectionNode.hpp:9-18 | the offset word is read only while the receive flag, which shares its first byte, was never written |
| ConnectionNode.ConnectionNode.ArmSend | src/ProudNet/ConnectionNode.cpp:88-108 | on the overlapped bytes, offers exactly the rest of the outbound string and reports whether it was taken |
| ConnectionNode.ConnectionNode.RetryConnect | src/ProudNet/ConnectionNode.cpp:40-66 | stays in state 1 when the gateway accepts a new connect, otherwise gives up |
| ConnectionNode.ConnectionNode.RunState1 | src/ProudNet/ConnectionNode.cpp:110-154 | state 1 on the overlapped bytes is state 1 of the machine with separate fields, and its result tells whether it moved on or retried |
| ConnectionNode.ConnectionNode.RunState2 | src/ProudNet/ConnectionNode.cpp:156-197 | the same for state 2; its result is 1 exactly when another slice was offered |
| ConnectionNode.ConnectionNode.FirstReceive | src/ProudNet/ConnectionNode.cpp:181-196 | the first write of the receive flag, which ends the life of the offset word, and the request for a full buffer |
| ConnectionNode.ConnectionNode.RunState3 | src/ProudNet/ConnectionNode.cpp:199-242 | the same for state 3 |
| ConnectionNode.ConnectionNode.AskForRest | src/ProudNet/ConnectionNode.cpp:228-241 | asks for exactly the room left, or stops when there is none |
| ConnectionNode.ConnectionNode.Drive | include/ProudNet/Layout.hpp:109-119 | layout refinement: after any run through an honest environment the overlapped block stands for exactly the state the machine with separate fields reaches, and the receive buffer has grown by exactly the delivered chunks |
| ConnectionNode.Connect | src/ProudNet/ConnectionNode.cpp:110-242 | from the zeroed block through any honest run: the overlapped bytes follow the machine, the receive buffer holds at most 0x8000 bytes and has copied at most 32 (mode 0) or 8 (mode 1) times its capacity |
| ConnectionNode.FlagDestroysOffset | include/ProudNet/Layout.hpp:113 | the overlap is real: once the flag is written the offset word reads back right only if its low byte equals the flag |
| FrameCodec.ReadLengthIsLittleEndian | include/game/net/proud_frame_parse.hpp:17-25 | the length reader yields the little-endian number of its one, two or four bytes |
| FrameCodec.LowBytesReadBack | include/game/net/proud_frame_parse.hpp:17-25 | the n low bytes of a number read back as the number modulo 256^n |
| FrameCodec.LengthRoundTripIff | include/game/net/proud_frame.hpp:14-31 | an encoded length reads back as itself exactly when it is below 2^32 |
| FrameCodec.TagIsLeast | include/game/net/proud_frame.hpp:14-31 | the width is the least in which the length is no negative number to a reader of signed integers, 4 if there is none |
| FrameCodec.WrappedLayout | include/game/net/proud_frame.hpp:33-42 | a frame byte by byte: 13 57, the width, the length in that many bytes, the payload |
| FrameCodec.EncodeLength | include/game/net/proud_frame.hpp:14-31 | writes the tag and as many little-endian bytes as it says: one up to 0x7F, two up to 0x7FFF, else four |
| FrameCodec.Wrap | include/game/net/proud_frame.hpp:33-42 | writes magic, length field and payload, nothing else |
| FrameScan.DecisionStable | include/game/net/proud_frame_parse.hpp:37-56 | what the scanner decides at an offset, unless it stops, does not depend on bytes that arrive later |
| FrameScan.LookDecides | include/game/net/proud_frame_parse.hpp:37-56 | in the numbers on the wire: what is skipped, and what is taken with how many bytes; all else stops the scan |
| FrameScan.ReportMeans | include/game/net/proud_frame_parse.hpp:58-61 | a report gives the size of the frame, the length its field announces, and the summary of its payload |
| FrameScan.MessageIsSummarised | include/game/net/proud_message.hpp:25-41 | a message of opcode 2 with any id below 2^16 and any body summarises to that id and the length of that body |
| FrameScan.SummaryMeans | include/game/net/proud_message.hpp:25-41 | conversely exactly opcode 2 with room for an id is read as a message, and the summary gives the message back; otherwise opcode and length of the rest, zeros for nothing |
| FrameScan.MessageIsReported | include/game/net/proud_frame_parse.hpp:58-62 | what the scanner writes first for a wrapped message: sizes, opcode, id and body length in numbers |
| FrameScan.SplitInTwo | include/game/net/proud_frame_parse.hpp:36-63 | parsing a chunk and then its rest with the next chunk cuts the stream into the same pieces as parsing both at once |
| FrameScan.ChunkSplit | include/game/net/proud_frame_parse.hpp:27-66 | the frames of a are a prefix of those of ab, and resuming where a stopped yields exactly the others |
| FrameScan.AnyChunking | docs/proudnet/protocol.md:56 | a receiver that carries the unparsed tail reports the frames of the stream however it is chunked |
| FrameScan.CapIsPrefix | include/game/net/proud_frame_parse.hpp:36 | a cap of k yields the first k frames |
| FrameScan.Conservation | include/game/net/proud_frame_parse.hpp:58-73 | skipped bytes, frames and rest are the chunk cut into consecutive pieces, so wire bytes plus leftovers add up to its length, cap or no cap |
| FrameScan.WrappedIsTaken | include/game/net/proud_frame.hpp:33-42 | a wrapped payload below 2^32 bytes is recognised whole and reported with its own summary, whatever follows |
| FrameScan.PartialFrameStops | include/game/net/proud_frame_parse.hpp:49-56 | a frame cut off anywhere stops the scan instead of being skipped or misread |
| FrameScan.JunkIsSkipped | include/game/net/proud_frame_parse.hpp:37-46 | junk without a header triple is skipped to its end; no header arises across its boundary with a frame |
| FrameScan.SelfSynchronising | include/game/net/proud_frame_parse.hpp:27-66 | any payloads wrapped behind any clean junk, followed by a frame cut off anywhere, scan to exactly the summaries of those payloads |
| FrameScan.CleanIffHidesNothing | include/game/net/proud_frame_parse.hpp:37-56 | exactly behind junk without a header triple is every wrapped payload found, whole and alone |
| FrameScan.LookIsExactIff | include/game/net/proud_frame_parse.hpp:48-56 | the decision at one offset in 32-bit sizes is the mathematical one exactly if offset plus wire size stays below 2^32; if not, a frame is taken where the mathematical scan stops |
| FrameScan.ScanIsExactIff | include/game/net/proud_frame_parse.hpp:36-63 | the scan in 32-bit sizes takes the same frames as the mathematical one exactly if it comes to no such length field |
| FrameScan.NoneMetIfShort | include/game/net/proud_frame_parse.hpp:52-55 | which is so whenever every four-byte length field of the chunk is below 2^32 by the chunk's length and 7 |
| FrameScan.TakesAreFound | include/game/net/proud_frame_parse.hpp:58-61 | the frames the mathematical scan takes, by offset and wire size, are those the results on the scanner speak of |
| FrameScan.ZeroWire | include/game/net/proud_frame_parse.hpp:54-62 | the length field 2^32 - 7 gives wire size 0, and one header is taken again until the cap |
| FrameScan.ScanFrames | include/game/net/proud_frame_parse.hpp:27-66 | the loop fills the front of the array with exactly the first frames of the chunk and leaves the other slots alone; null pointers and a zero cap give none |
| FrameScan.LogChunk | src/ProudNet/TcpTrace.cpp:198-208 | the reported incomplete count is exactly skipped bytes plus unconsumed tail, and with the frames' wire bytes makes up the chunk |
| HookManager.JumpLands | src/hook_manager.cpp:66-74 | the five bytes written are a jump that lands on the hook modulo 2^32, whatever the distance |
| HookManager.PatchedKeepsInv | src/hook_manager.cpp:130-146 | patching a registered stub keeps all other bytes and all other jumps as the invariant has them |
| HookManager.UnpatchedKeepsInv | src/hook_manager.cpp:95-105 | restoring twelve saved bytes gives pristine bytes back and disturbs no other stub, so the invariant holds again |
| HookManager.UnhookedIsPristine | src/hook_manager.cpp:58-59 | the bytes saved when a stub is hooked are pristine: no neighbour's patch reaches into its window |
| HookManager.MakeKeepsInv | src/hook_manager.cpp:44-84 | hooking keeps the invariant through every failing answer, and succeeds exactly if the stub ends up hooked |
| HookManager.MakeAnswers | src/hook_manager.cpp:44-84 | hooking succeeds exactly if the stub is hooked or everything is granted; its first five bytes then decode as a jump to its hook, the others stay, and what was there is saved |
| HookManager.RestoreAnswers | src/hook_manager.cpp:86-106 | restoring succeeds exactly if the stub is not hooked or both calls do, and then the saved bytes are back |
| HookManager.InvokeHooksAgain | src/hook_manager.cpp:118-146 | invoking a hooked stub runs the function with the stub unhooked and pristine and hooks it again, or leaves it unhooked and pristine if that is refused; with nothing done inside, the world is as before |
| HookManager.InvokeRefused | src/hook_manager.cpp:110-124 | without a module or a function, or when the hook cannot be lifted, nothing happens |
| HookManager.InvokeUnhooked | src/hook_manager.cpp:128-146 | on a stub that is not hooked the function runs as things are, and the stub is hooked afterwards exactly if that is granted |
| HookManager.RelocatedMovesAlong | src/hook_manager.cpp:54-56 | at its linked base an image has its stubs at their linked addresses; moved, they move along |
| HookManager.ExecKeepsInv | src/hook_manager.cpp:108-147 | one use of the manager keeps the invariant, functions nested under invoke to any depth |
| HookManager.NoInvokesAreLegal | src/hook_manager.cpp:44-106 | hooking and restoring are legal in any order |
| HookManager.RunKeepsInv | src/hook_manager.cpp:44-147 | so does every run |
| HookManager.HookMemory | src/hook_manager.cpp:44-147 | after any run with any failing writes, every hooked stub starts with a jump to its hook and every other byte is as it was before the first hook |
| HookManager.RestoreAllKeeps | src/hook_manager.cpp:212-218 | restoring a list of stubs, repetitions allowed, unhooks all of them if it reports success, keeps the invariant if not, and succeeds when no write fails |
| HookManager.RestoreAllSucceeds | src/hook_manager.cpp:212-225 | success means the memory is pristine again, however often a stub was registered |
| HookManager.AllAvoidedStaysSame | src/hook_manager.cpp:44-147 | uses of other stubs, nested to any depth and whether or not those were hooked before, leave a stub, its saved bytes and its code as they are |
| HookManager.UnsavedInvokeIff | src/hook_manager.cpp:118-146 | whatever function on other stubs it runs and whatever the system answers: invoking a stub that is not hooked and then restoring it gives its code back exactly if nothing was run or patched, or the bytes written back already were in place |
| HookManager.FirstInvokeWipes | src/hook_manager.cpp:118-146 | on a stub of which nothing was ever saved this leaves twelve zero bytes |
| HookManager.TrustedIffDisjoint | src/hook_manager.cpp:212-225 | for stubs whose code does not start with a jump, success of restoring means pristine memory in every legal run exactly if no two windows overlap |
| HookManager.OverlapStaysPatched | src/hook_manager.cpp:212-218 | a stub and then one whose window reaches over its first byte, whatever else is hooked or registered: restoring all reports success and leaves the first jump |
| HookManager.SharedWindowStaysPatched | src/thegame/dll_main.cpp:73-74 | two stubs on one window, whatever else is registered: restoring in registration order reports success and gives their code back exactly if it already was the first jump; in the opposite order it always comes back |
| HookManager.Manager.constructor | src/hook_manager.cpp:54-56 | stubs sit at their linked address moved by the load address, modulo 2^32 |
| HookManager.Manager.WriteMemory | src/hook_manager.cpp:34-37 | writes the bytes in place, or nothing when refused |
| HookManager.Manager.MakeHook | src/hook_manager.cpp:44-84 | state and result of hooking on the byte memory, for every answer of the system |
| HookManager.Manager.RestoreHook | src/hook_manager.cpp:86-106 | state and result of restoring |
| HookManager.Manager.InvokeHooked | src/hook_manager.cpp:108-147 | state after lifting the hook, running a function that may use the manager, and patching again |
| HookManager.Manager.RestoreAllHooks | src/hook_manager.cpp:212-225 | the loop goes on only while everything succeeded, and reports that |
| HookManager.Manager.LoadToUnload | src/thegame/dll_main.cpp:141-172 | from loading to unloading, whatever was hooked, restored, invoked or failed in between, unloading that reports success leaves every byte of memory as found and no stub hooked; it does report success if its writes succeed |
| NavCommands.FirstInFirstOut | src/RMI/NavCommands.cpp:24-60 | over any interleaving what went in is what came out followed by what is left; at most 16 wait |
| NavCommands.DroppedIff | src/RMI/NavCommands.cpp:24-38 | a command is dropped exactly if it is the empty one or 16 are waiting |
| NavCommands.NavQueue.Enqueue | src/RMI/NavCommands.cpp:24-38 | the ring with ever-growing indices appends the command, and drops it exactly if 16 are waiting or it is the empty command |
| NavCommands.NavQueue.Dequeue | src/RMI/NavCommands.cpp:48-60 | hands over the oldest waiting command |
| NavCommands.NavQueue.HasQueued | src/RMI/NavCommands.cpp:40-46 | tells whether a command is waiting |
| Nav.StepFollows | src/RMI/Nav.cpp:155-192 | the messages of one step follow the protocol from the stage the flags stand for to the stage they stand for afterwards |
| Nav.FlowSafety | src/RMI/Nav.cpp:155-240 | under every interleaving of enqueues, drains, pumps, scene and lock changes and teardowns between pumps: per activation one 0x3EB2 with its index, then at most one state request (lock clear, not in the lobby), then at most one 0x3F40 (in the lobby); no flag is set while nothing is pending |
| Nav.NeverMoreThanArmed | src/RMI/Nav.cpp:168-191 | a conversation that follows the protocol never sends more of anything than was armed |
| Nav.SendsNeverExceedCommands | src/RMI/Nav.cpp:200-214 | each kind of message is sent at most once per drained command |
| Nav.CommandsWereAdmitted | src/RMI/Nav.cpp:200-203 | drained commands and those still waiting never exceed those that got into the ring |
| Nav.EveryCommandActs | src/RMI/Nav.cpp:200-214 | every admitted command is acted on exactly once or still waiting |
| Nav.DrainArms | src/RMI/Nav.cpp:203-211 | a drained command arms the flow from scratch with the configured index, whatever was going on |
| Nav.PumpAdvances | src/RMI/Nav.cpp:162-192 | a pump takes a pending flow exactly as far as scene and lock allow |
| Nav.TeardownClears | src/RMI/Nav.cpp:155-166 | a teardown between pumps clears all flags and nothing else; a pump without a pending flow does nothing |
| Nav.OneCommandConversation | docs/rmi/autonav.md:42-48 | one command, a pump outside the lobby and a pump in it produce exactly activation, 0x3EB2, state request, 0x3F40 |
| Nav.NavFlow.ClearPassShardFlow | src/RMI/Nav.cpp:155-160 | clears the pending flag and all one-shot flags, nothing else |
| Nav.NavFlow.PumpPassShardSelect | src/RMI/Nav.cpp:162-192 | flags and messages after one pass, for every scene and lock |
| Nav.NavFlow.DrainCommands | src/RMI/Nav.cpp:200-214 | the drain loop, with commands arriving between turns, makes only dequeue steps of the flow and ends with the queue seen empty |
| Nav.NavFlow.Pump | src/RMI/Nav.cpp:234-240 | a pump is a run of the flow: begin, drain, one pass over the flags |
| Nav.NavFlow.Teardown | src/RMI/Nav.cpp:223-232 | teardown clears the flow wherever it is; between pumps it is the teardown step of the flow |
| NavSteps.SendsBounded | src/RMI/Nav.cpp:155-240 | at the grain of single interlocked operations, with pumps begun inside calls into the game and teardowns at any point: each message is paid for by a command, a teardown or a pump begun inside the send of 0x3EB2 |
| NavSteps.SendsFromStart | src/RMI/Nav.cpp:155-240 | so sends of 0x3EB2 never exceed drained commands plus teardowns, and the later two messages exceed that by at most one for each pump begun inside a send of 0x3EB2 |
| NavSteps.PumpsAtOnce | src/RMI/Nav.cpp:162-192 | left alone, the single operations of a pump come to an end and add up to one pass of the flow |
| NavSteps.ArmsAtOnce | src/RMI/Nav.cpp:203-211 | and the five stores of a drained command to one drain step |
| NavSteps.RunCatchesUp | src/RMI/Nav.cpp:155-240 | simulation: every run in which pumps and teardowns begin only while no pump runs is matched, move by move, by a run of the flow that pumps at once |
| NavSteps.UndisturbedIsFlow | src/RMI/Nav.cpp:155-240 | so from the start, whatever the pumps find and wherever teardowns run between them, messages and flags between pumps are those of a run of the flow |
| NavSteps.PolicyFollows | src/RMI/Nav.cpp:107-113 | with pumps begun inside nothing but the scene request, and teardowns between pumps only, every run follows the protocol operation by operation |
| NavSteps.OrderlySends | src/RMI/Nav.cpp:155-240 | in such runs no kind of message is sent more often than commands are drained |
| NavSteps.TwoEnters | src/RMI/Nav.cpp:168-178 | a pump begun inside the send of 0x3EB2: one command, two sends of 0x3F40 |
| NavSteps.LateRequest | src/RMI/Nav.cpp:174-191 | a pump begun inside the send of 0x3F40: a scene request after the conversation ended |
| NavSteps.TwoSelects | src/RMI/Nav.cpp:155-172 | a teardown beside a pump: one command, two sends of 0x3EB2 |
| NavSteps.ProtocolIff | src/RMI/Nav.cpp:107-240 | the messages follow the protocol in every run exactly if pumps begin inside no call but the scene request and no teardown runs beside a pump; teardowns between pumps are harmless |
| HandlerPipe.SplitContinues | src/diagnostics/handler_pipe.cpp:141-152 | splitting a string and then its tail with what follows is splitting both at once |
| HandlerPipe.LinesAreInput | src/diagnostics/handler_pipe.cpp:141-152 | lines and tail are the input cut at its newlines: with the newlines put back they are the input, and none is left inside |
| HandlerPipe.LinesUnique | src/diagnostics/handler_pipe.cpp:141-152 | and they are the only such cut |
| HandlerPipe.TrimmedMeans | src/diagnostics/handler_pipe.cpp:101-106 | what is handed on are the bytes of the line before its first carriage return, all of them if there is none |
| HandlerPipe.ChunkingIrrelevant | src/diagnostics/handler_pipe.cpp:108-154 | the lines handed on and the pending tail depend only on the concatenated input |
| HandlerPipe.PipeReader.StrChr | src/diagnostics/handler_pipe.cpp:141-143 | the search for a newline finds the first one before any NUL and never leaves the buffer |
| HandlerPipe.PipeReader.ConsumeLine | src/diagnostics/handler_pipe.cpp:101-106 | the line handed on ends at its first carriage return; no other byte is disturbed |
| HandlerPipe.PipeReader.Accept | src/diagnostics/handler_pipe.cpp:112-139 | the chunks are laid behind the pending bytes |
| HandlerPipe.PipeReader.SplitLines | src/diagnostics/handler_pipe.cpp:141-147 | the in-place loop hands on exactly the lines of the input and leaves no newline anywhere in the buffer |
| HandlerPipe.PipeReader.MoveDown | src/diagnostics/handler_pipe.cpp:149-151 | the overlapping move brings the tail to the front unharmed |
| HandlerPipe.PipeReader.ReadMore | src/diagnostics/handler_pipe.cpp:108-154 | one call hands on the lines of pending bytes plus input, keeps the rest pending, and again leaves no newline in the buffer |
| HandlerPipe.PipeReader.ReadConnection | src/diagnostics/handler_pipe.cpp:156-164 | over a whole connection, the lines handed on and the bytes kept are those of the bytes sent, however the calls and reads cut them |
| JsonEscape.EscapeReadsBack | src/helpers/strhelp.cpp:75-115 | the escape of any NUL-free string is a legal string body by section 7 of RFC 8259 and reads back as that string |
| JsonEscape.EscapeTable | src/helpers/strhelp.cpp:82-112 | the escape of every byte, in bytes |
| JsonEscape.ShortestIff | src/helpers/strhelp.cpp:82-112 | an escape is as short as section 7 of RFC 8259 allows, except for backspace and form feed; hexadecimal digits are in lower case |
| JsonEscape.NextDoesNotFit | src/helpers/strhelp.cpp:80-84 | stopping at the first character that does not fit gives the longest prefix that fits |
| JsonEscape.PutEscape | src/helpers/strhelp.cpp:82-112 | one turn writes the whole escape of a character or nothing at all |
| JsonEscape.PutUnicode | src/helpers/strhelp.cpp:102-109 | a control character becomes its six-byte escape or nothing |
| JsonEscape.Escape | src/helpers/strhelp.cpp:75-115 | the buffer receives the terminated escape of the longest source prefix that fits, readable back as that prefix, and nothing behind it changes; a null source gives the empty string |
| CowString.Repoint | src/game/engine/string.cpp:249-272 | moving a handle changes only the counts of the body it leaves and the body it joins |
| CowString.SoleHolder | src/game/engine/string.cpp:446-460 | a body counted once is seen by one handle only |
| CowString.Settle | src/game/engine/string.cpp:398-419 | giving an unshared body new contents changes no other string |
| CowString.Detach | src/game/engine/string.cpp:329-358 | giving a string a new body changes no other string and leaves no body counted below its handles |
| CowString.Release | src/game/engine/string.cpp:257-272 | dropping a handle frees a body only when no other string is on it |
| CowString.Retain | src/game/engine/string.cpp:249-255 | adding a handle keeps every count at or above the handles |
| CowString.TrimStripsIff | src/game/engine/string.cpp:190-195 | the trimming loop strips the character exactly when it is below 0x80 or does not occur in front |
| CowString.TrimCountMeans | src/game/engine/string.cpp:190-195 | the loop counts all leading occurrences of a character below 0x80, and none of any other |
| CowString.AccountsRelease | src/game/engine/string.cpp:257-272 | giving up a body keeps the surplus of every count over its handles, and frees only a body without surplus |
| CowString.AccountsRetain | src/game/engine/string.cpp:249-255 | joining a body keeps every surplus |
| CowString.AccountsDetach | src/game/engine/string.cpp:329-358 | a new body has no surplus; the body left for it, if any, gains one |
| CowString.ExactAndUnusedIsEmpty | src/game/engine/string.cpp:257-272 | a heap whose counts are exactly its handles and which has no strings left is empty |
| CowString.StringHeap.DecRefCount | src/game/engine/string.cpp:257-272 | the handle becomes the shared empty string; the body it left is freed exactly if it was counted once and otherwise counted once less; no other body or string changes |
| CowString.StringHeap.CopyConstruct | src/game/engine/string.cpp:78-81 | the new string reads as the old one, whose body is counted once more; nothing else changes |
| CowString.StringHeap.Assign | src/game/engine/string.cpp:104-110 | the string reads as the assigned one; no other changes; every count keeps its distance to the handles |
| CowString.StringHeap.Destroy | include/game/engine/string.h:116 | only the destroyed string disappears |
| CowString.StringHeap.FromBytes | src/game/engine/string.cpp:83-86 | a new string with the given characters, or one that reads as empty for a null pointer; no other changes |
| CowString.StringHeap.CopyOnWrite | src/game/engine/string.cpp:446-460 | afterwards the string has a body of its own with the same characters |
| CowString.StringHeap.Realloc | src/game/engine/string.cpp:329-358 | throws below zero, empties the string for zero, does nothing for its own length, otherwise makes a body of its own that starts with the old characters, cut off if need be, whatever lies behind them; the body left behind keeps its count |
| CowString.StringHeap.Reserve | src/game/engine/string.cpp:299-327 | room for the asked length in a body of one's own that starts with the old characters |
| CowString.StringHeap.Truncate | src/game/engine/string.cpp:398-419 | cuts every string on the same body, in place, and no other; on a body of its own it makes a proper C string again |
| CowString.StringHeap.Concatenate | src/game/engine/string.cpp:206-228 | the heap behaves like separate values: the receiver becomes both strings in a row, also when it is appended to itself or shares its body, and no other string changes; if anything is appended, the body the receiver leaves stays counted once too often |
| CowString.StringHeap.ConcatenateCstr | src/game/engine/string.cpp:230-247 | the same for a C string, empty and null ones included |
| CowString.StringHeap.TrimLeft | src/game/engine/string.cpp:176-204 | the receiver loses the leading characters the loop counts, and no other string changes |
| CowString.StringHeap.TruncateAtFirstOccurrence | src/game/engine/string.cpp:125-155 | the receiver is cut before the first occurrence, and no other string changes |
| CowString.UseOnce | src/game/engine/string.cpp:78-228 | one use of any kind does to the values what it says, and only appending something to a string that has a body leaves a count behind |
| CowString.UseAll | src/game/engine/string.cpp:78-228 | over any run without appends, counts that were exactly the handles stay so |
| CowString.DestroyAll | src/game/engine/string.cpp:257-272 | destroying all strings of such a heap frees every body |
| Dispatch.WrapperTransparency | src/ProudNet/ProcessProudNetLayer.cpp:127-156 | at any nesting depth the result, the peer tests and the handler calls are those of the innermost message received on its own, and each of them is given exactly that message |
| Dispatch.OutermostMetaArrives | src/ProudNet/ProcessProudNetLayer.cpp:151 | if the unwrap functions leave the metadata of the message they are given alone, the innermost message carries the metadata of the outermost |
| Dispatch.AtMostOneHandler | src/ProudNet/ProcessProudNetLayer.cpp:177-321 | one handler runs if the innermost message has one and passes the guard, otherwise none |
| Dispatch.ResultByType | src/ProudNet/ProcessProudNetLayer.cpp:160-330 | whether a message is processed, by the type number of the innermost message: the RMI handler's flag for 1, no for 2 and unlisted types, yes for the others, also when the guard stops the handler |
| Dispatch.LeafByType | src/ProudNet/ProcessProudNetLayer.cpp:177-325 | by type number: result, peer test, handler address, and how the message is left |
| Dispatch.WrapperByType | src/ProudNet/ProcessProudNetLayer.cpp:294-298 | exactly the types 37, 38 and 39 are wrappers, 39 the encrypted one |
| Dispatch.RouteTable | src/ProudNet/ProcessProudNetLayer.cpp:177-321 | the guarded, unguarded, no-op and wrapper types, each listed |
| Dispatch.GuardedHandlers | include/ProudNet/Layout.hpp:65-91 | the handler address of every guarded type |
| Dispatch.UnguardedHandlers | include/ProudNet/Layout.hpp:65-91 | and of every other |
| Dispatch.UnreadableIsRewound | src/ProudNet/ProcessProudNetLayer.cpp:168-171 | a message whose type cannot be read is rewound and nothing is called |
| Dispatch.StackMessagesBalanced | src/ProudNet/ProcessProudNetLayer.cpp:129-155 | every stack message is destroyed, the last one built first, also when unwrapping fails at any depth; one is built for each wrapper met |
| Dispatch.OnlyInnermostIsRewound | src/ProudNet/ProcessProudNetLayer.cpp:127-326 | of a whole nest at most the innermost message is rewound, exactly when the dispatch fails for another reason than a failed unwrapping |
| Dispatch.FailureRewindsIff | src/ProudNet/ProcessProudNetLayer.cpp:294-326 | a message is rewound exactly if its dispatch fails and it is not a wrapper; after a failure its read position is where it started exactly if it is not a wrapper or its unwrap function left it there |
| Dispatch.Dispatcher.CopyReceivedMetadata | src/ProudNet/ProcessProudNetLayer.cpp:88-98 | exactly the eleven metadata bytes are taken over |
| Dispatch.MetaBytesAre | src/ProudNet/ProcessProudNetLayer.cpp:88-98 | which eleven bytes they are |
| Dispatch.Dispatcher.DispatchGuarded | src/ProudNet/ProcessProudNetLayer.cpp:112-117 | the handler runs exactly when the peer test says the message is not from a remote peer |
| Dispatch.Dispatcher.ProcessMessage | src/ProudNet/ProcessProudNetLayer.cpp:160-330 | result, calls made, and the bytes and read position in which the message is left, whatever handlers and unwrap functions do to both, the recursion included |
| Dispatch.Dispatcher.DispatchWrapped | src/ProudNet/ProcessProudNetLayer.cpp:127-156 | the same for the wrapper branch, on a stack message that takes over the metadata as the unwrap function left it |

## Left out

- FSM states 0, 4 and 5, the driver, UPnP calls and select's descriptor sets: states 4 and 5 only end a run here, and the driver is the rule that the state word picks the step.
- The two socket slots of a connection (+4 and +8) are one socket with one filled/empty flag; they are assumed to name the same socket.
- Allocation failure and rejected growth modes inside a connection step: the exceptions they raise pass through the step; the buffer operations themselves cover them.
- Whether a send ever completes: the code does not guarantee it, see `State2MovesIff` and `NeverPastState2`.
- Reported socket errors, peer address refresh and all logging, including the duplicate-issue warnings.
- Machine-width overflow of lengths, totals and queue indices; mathematical integers are used except for the 32-bit words of the node, the hook's jump distance and the scanner's exactness results.
- FrameScan.ScanFrames: computes in mathematical integers; the program's 32-bit sizes do the same exactly under `ScanIsExactIff`.
- HookManager.Manager.RestoreAllHooks: covers code hooks; import-table hooks are not modelled, so none is registered.
- HookManager.Manager.LoadToUnload: requires windows apart and no import hooks. The installed list has two stubs on one window (src/hooks/str/string.cpp:172-188), for which the conclusion is false, see `SharedWindowStaysPatched`; that apart is what it takes is `TrustedIffDisjoint`.
- A missing main module in `restore_hook`, which does not check for it.
- The wakeup thread, the installing of the message hook and the payload bytes of the navigation messages. The hook's pumps are those of `NavSteps.dfy`, which lets a pump begin inside any call into the game, pending work or not.
- Nav.NavFlow.Teardown: is one step of the flow only between pumps; what one beside a pump does to the messages is in `NavSteps.dfy`.
- HandlerPipe.PipeReader.Accept: requires that the chunks fit, for the reason given for ReadMore.
- HandlerPipe.PipeReader.ReadMore: requires that the input fits and is free of NUL bytes; on overflow and on disconnect the source resets the length without cleaning the buffer, so lines may be lost or repeated there.
- HandlerPipe.PipeReader.ReadConnection: requires of every call what ReadMore requires, for the same reason.
- Replies to pipe commands and their dispatch to the command ring.
- The shared empty string's own count, which is decremented without being incremented, and allocation failure in strings.
- CowString.StringHeap.Realloc: the body it replaces is not released, so after appends counts are at least, not equal to, the handles; without them they are equal, see `UseAll`.
- Multibyte stepping, `Swap` and `Vformat`.
- Format check of unconsumed bytes after dispatch (not in the code yet) and the trace of incoming RMI calls.
- Rehooking of the unwrap functions around their call; it is an instance of `RunKeepsInv`.
