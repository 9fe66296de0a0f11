# Rebocap driver and bridge: a verified model

A SteamVR driver talks to the Rebocap app through a bridge: the driver sends and receives length-prefixed
protobuf messages over TCP, and the bridge relays them to a message-mode pipe. This project models the three
cores of that system in Dafny and proves what they promise.

**The wire pipeline.** `Wire` and `Proto` say what bytes mean; `Codec` runs the cursor-based decoder and the
encoders and is proved against them; `ProtoLaws` holds the laws of the format and `WireLaws` those of its
numbers. `AppMessages` shows that the messages of the app, written as its schema has them, are read back, and
`DriverMessages` what an app that follows the schema reads in the driver's. `Framing` is a one-pass frame parser; `Client` (the driver's TCP client, with its chunked reader and all-or-nothing sends) and `Bridge` (both
relay loops) are proved against it, and `Pipeline` joins them end to end. `Transport` states what is assumed of
the kernel. `Descriptor` and `Teardown` are state machines of two threads each: the life of the socket
descriptor in the driver, and the end of a session in the bridge with its blocking receives, reads and writes.

**The stick override.** `Hooks` is the recording, injecting and releasing of a hand controller's stick with each
call as one step, and the capture list; `HookLaws` has its runs. `OverrideRace` takes the same protocol apart
into single atomic loads and stores. `WalkInPlace` is the timed logic on top, `WalkLaws` its runs and
`CaptureLaws` the runs in which sticks are captured.

**The handshake and the poses.** `Handshake` is the part of a frame that keeps the app informed of headset and
play space, with reconnects possible between any two of its steps. `Tracker` is the status of a tracker over
time. `Pose` and `Plane` are the coordinate mathematics over the reals; an angle is given by the cosine and sine
of its half. `Clock` names the time units.

Code that changes things step by step is modelled by classes and loops, each proved against a function of its
inputs or of its old state; the laws are lemmas about those functions. The four state machines (`Descriptor`,
`Teardown`, `OverrideRace`, and the runs of `WalkLaws`) range over every sequence of possible actions.

## What the proofs showed

- The list of components without a known hand can exceed its bound of 64 when components are created while it is
  being worked on, and then stays over it (`HookLaws.PendingBounded`, `HookLaws.PendingCanExceed`,
  `HookLaws.CreationsNeverShrink`; `driver/src/input_hooks.hpp:237-240`).
- Under full interleaving a release can put an older real value over a newer one that was forwarded meanwhile
  (`OverrideRace.OlderWriteBackWins`); the value stays until the next update. `OverrideRace.ShowsNewestIff` says,
  in terms of the schedule, exactly when the host ends up with the newest value. No withheld update is lost in any
  interleaving.
- An update that loads the flag before an override begins and is forwarded after the injection leaves the overridden
  stick at its real value for as long as the injected vector stays the same (`OverrideRace.ForwardOverInjection`;
  `driver/src/input_hooks.hpp:286-288`). `OverrideRace.ShowsInjectedIff` says exactly when this happens.
- A wip_info received just before a disconnect is handled after the reconnect and counts as fresh then, however long
  the outage was (`WalkLaws.FreshAfterOutage`; `driver/src/driver.cpp:490-508`). The one-second timeout therefore
  counts from the handling frame; `WalkLaws.BackedByReceipt` says what it means for the receipt.
- If the bridge's reader ends a session just before the main thread issues its pipe write, no cancel follows for that
  write, and the session waits until the app takes the message or closes the pipe (`Teardown.WriteAfterCancel`;
  `bridge/bridge.c:64-71`).
- The conversion from the headset's matrix to a quaternion misreads half turns about axes with components of
  opposite sign (`Pose.OrientationRecoveredIff`, `Pose.HalfTurnMisread`; `driver/src/driver.cpp:1066-1069`).
- A fault the app reported for a tracker is replaced by OK once a timeout and then a position have come
  (`Tracker.FaultForgotten`; `driver/src/driver.cpp:200-203`).
- A change of mode made while the treadmill is deactivated with its stick moved leaves it moved while a hand's
  stick is driven; that is the only way (`WalkLaws.BothIff`, `WalkLaws.BothAfterDeactivation`). An activation
  creates new components, but a repeat of the last value is still left out (`WalkInPlace.Treadmill.Activate`).
- `docs/protocol.md:50` says path_failed is sent about once per 30 frames; the code counts failed searches, of
  which there is at most one a second. The model follows the code (`Handshake.OneReportInThirty`).
- `docs/protocol.md:53` calls the handshake status then universe. path_failed can precede the first status
  (`driver/src/driver.cpp:555-564`, `Handshake.PathFailedFirst`), so only the order of status and universe is claimed.
- `docs/protocol.md:14` limits payloads to 2044 bytes. The bridge enforces that towards the app only; from the app
  it relays up to 4092 (`bridge/bridge.c:75-92`), and the driver accepts up to 65536. The limits agree in both
  directions (`Pipeline.DriverToApp`, `Pipeline.AppToDriver`).

## Model

| member | source | states |
|---|---|---|
| Wire.VarintRoundTrip | driver/src/proto.hpp:69-84 | reading a varint undoes `put_varint` for every 64-bit value, whatever bytes follow; at most ten bytes are written |
| Wire.VarintSuffix | driver/src/proto.hpp:69-84 | a varint is read from its own bytes: what follows does not change its value or length |
| Wire.Int32RoundTrip | driver/src/proto.hpp:190-191 | a negative number read from its five-byte unsigned form or its ten-byte sign-extended form is the same int32 |
| Wire.LE32RoundTrip | driver/src/net.hpp:68-71 | the little-endian length header reads back as the length, whatever follows it |
| WireLaws.VarintReads | driver/src/proto.hpp:69-84 | a varint reads exactly when one of the first ten bytes has the high bit clear; the first such byte ends it, and byte i counts its low seven bits 128^i times, modulo 2^64 |
| WireLaws.VarintLayout | driver/src/proto.hpp:147-154 | what is written is a whole varint of that value in this sense, with no byte to spare |
| WireLaws.CastsKeepBits | driver/src/proto.hpp:190-191 | a number is cast to the one int32 that is the same modulo 2^32, and back to the remainder |
| Framing.FrameLayout | driver/src/net.hpp:68-71 | a frame is the payload's length in four bytes, least significant first, and then the payload |
| Codec.Reader.ReadVarint | driver/src/proto.hpp:69-84 | the shift-and-or loop gives the base-128 value modulo 2^64 of the first terminated group of at most ten bytes and stops just behind it, or fails |
| Codec.Reader.ReadFixed | driver/src/proto.hpp:86-98 | the next bytes are taken when there are enough; otherwise the cursor stays and the reader fails |
| Codec.Reader.Sub | driver/src/proto.hpp:100-110 | a sub-reader covers exactly the length-delimited bytes and lies inside its parent's range; a length that does not fit fails the parent and gives an empty range |
| Codec.Reader.Skip | driver/src/proto.hpp:112-129 | skipping moves behind exactly the bytes the field takes; unknown wire types fail |
| Codec.Reader.Repeated | driver/src/proto.hpp:133-145 | a packed array appends its elements and fails unless they fill it exactly; every other wire type appends one fixed-width element |
| Codec.Reader.ReadField | driver/src/proto.hpp:186-190 | one turn of the inner loop is one step of the specification and takes at least one byte |
| Codec.Reader.ReadValue | driver/src/proto.hpp:190-219 | each branch stores the value its field means; every other field is skipped |
| Codec.Reader.ReadWipValue | driver/src/proto.hpp:205-219 | the last branches of the same chain |
| Codec.DecodeSubmessage | driver/src/proto.hpp:186-222 | the inner loop ends, accepts exactly when the fields fill the sub-reader to its end, and gives the message they mean |
| Codec.DecodeTopField | driver/src/proto.hpp:173-184 | one turn of the outer loop: a known submessage replaces the message, anything else is skipped |
| Codec.DecodePayload | driver/src/proto.hpp:169-226 | `decode` ends on every byte string and returns what the specification gives, true exactly when the whole payload was well formed and held a message |
| Codec.AppendVarint | driver/src/proto.hpp:147-154 | appends the base-128 form of the value |
| Codec.AppendNumber | driver/src/proto.hpp:231-234 | appends a number field, or nothing for zero |
| Codec.AppendFixed | driver/src/proto.hpp:255-257 | appends the values in order |
| Codec.WrapField | driver/src/proto.hpp:161-166 | tag, length and inner bytes |
| Codec.EncodeStatus | driver/src/proto.hpp:228-242 | the bytes written decode to the status message with this id and status, for all int32 |
| Codec.EncodePosition | driver/src/proto.hpp:244-267 | the bytes written decode to the position with this id, orientation and position, for all bit patterns |
| Codec.EncodeUniverse | driver/src/proto.hpp:269-285 | an app that reads the schema gets the yaw and the position written, a negative zero yaw as zero |
| Codec.EncodePathFailed | driver/src/proto.hpp:287-296 | an app that reads the schema gets the reason written |
| ProtoLaws.NextFieldSuffix | driver/src/proto.hpp:174-180 | locality: a field is read from its own bytes, whatever follows |
| ProtoLaws.FieldsAppend | driver/src/proto.hpp:186-220 | reading two runs of whole fields one after the other is reading their concatenation |
| ProtoLaws.TopFieldsAppend | driver/src/proto.hpp:173-223 | the same at the top level |
| ProtoLaws.AcceptedIsWhole | driver/src/proto.hpp:186-222 | an accepted submessage was consumed exactly to its end |
| ProtoLaws.TopAcceptedIsWhole | driver/src/proto.hpp:172-225 | an accepted payload was consumed exactly to its end, and so was every known submessage in it |
| ProtoLaws.TopFieldsFrom | driver/src/proto.hpp:182-184 | the message read before matters only while no submessage follows |
| ProtoLaws.LastOneWins | driver/src/proto.hpp:182-225 | after an accepted payload, one with a message replaces it, one without leaves it, a broken one spoils both |
| ProtoLaws.UnknownInside | driver/src/proto.hpp:217-219 | well-formed unknown fields at any boundary inside a submessage change nothing |
| ProtoLaws.UnknownBetween | driver/src/proto.hpp:177-180 | nor do unknown fields at any top-level boundary |
| ProtoLaws.UnknownInsideWrapped | driver/src/proto.hpp:182-219 | nor when the length of the enclosing submessage grows by them |
| ProtoLaws.TopSkipped | driver/src/proto.hpp:173-180 | at the top level only a length-delimited field numbered 1 to 8 is read |
| ProtoLaws.BadWireFails | driver/src/proto.hpp:112-129 | a wire type the format does not have spoils the message, except before an element of `q` or `pos` |
| ProtoLaws.DecodedKind | driver/src/proto.hpp:225 | a payload whose fields are all unknown carries no message; one that carries a message has one of the eight kinds |
| ProtoLaws.FlagRead | driver/src/proto.hpp:204-209 | each of the five flags is set by any number but 0 |
| ProtoLaws.NumberRead | driver/src/proto.hpp:190-199 | ids, roles and statuses of more than 32 bits keep the lower 32 |
| ProtoLaws.ElementsFill | driver/src/proto.hpp:133-145 | a packed array reads exactly when its elements fill it, and then they are its bytes in order |
| ProtoLaws.ElementAnyWire | driver/src/proto.hpp:141-143 | a single element is read at its width whatever wire type but 2 its tag has |
| ProtoLaws.MixedRuns | driver/src/proto.hpp:132-145 | any mix of packed and unpacked runs of `q` and `pos` gives the two sequences in order |
| ProtoLaws.StatusRoundTrip | driver/src/proto.hpp:228-242 | decoding an encoded status gives its id and status back, for every int32 |
| ProtoLaws.PositionRoundTrip | driver/src/proto.hpp:244-267 | decoding an encoded position gives its id and every double's and float's bytes back |
| ProtoLaws.UniverseDecodes | driver/src/proto.hpp:269-285 | an encoded universe decodes to a universe change, whatever its yaw and position |
| ProtoLaws.PathFailedDecodes | driver/src/proto.hpp:287-296 | an encoded path_failed decodes to its kind |
| ProtoLaws.EncodedSizes | driver/src/proto.hpp:228-296 | no encoder writes more than 56 bytes, below the 2044 the bridge forwards |
| DriverMessages.UniverseFields | driver/src/proto.hpp:269-284 | a universe_change holds the yaw as a fixed32 field 1 unless it is a zero of either sign, the position as a packed field 2, and nothing else |
| DriverMessages.UniverseRoundTrip | driver/src/proto.hpp:269-284 | so an app that reads the schema gets the play space back |
| DriverMessages.PathFailedFields | driver/src/proto.hpp:287-296 | a path_failed holds the reason as a varint field 1 unless it is 0, and nothing else |
| DriverMessages.PathFailedRoundTrip | driver/src/proto.hpp:287-296 | so an app that reads the schema gets the reason back |
| DriverMessages.HeadsetStatusBytes | driver/src/proto.hpp:228-242 | the status of a tracking headset and of one that does not track, byte by byte |
| AppMessages.ReadsWhatWasWritten | driver/src/proto.hpp:186-220 | whatever fields of the schema a standard proto3 writer writes (numbers up to 15, packed numbers, embedded messages, also empty ones), in whatever order and with defaults left out, the decoder applies exactly those |
| AppMessages.PositionDecodes | driver/src/proto.hpp:190-195 | a position decodes to its id and its elements, however many there are |
| AppMessages.TrackerAddedDecodes | driver/src/proto.hpp:196-200 | a tracker_added decodes to its id, role and name, also for ten-byte negative numbers |
| AppMessages.TrackerStatusDecodes | driver/src/proto.hpp:201-204 | a tracker_status of the app decodes to its id, status and battery level |
| AppMessages.WipInfoDecodes | driver/src/proto.hpp:211-219 | a wip_info decodes to its speed, y and status; the embedded position is skipped, whatever it holds, and may be missing |
| AppMessages.WipSettingDecodes | driver/src/proto.hpp:205-210 | a wip_setting decodes to its five flags, each in its place |
| AppMessages.WipFuncStateChangeDecodes | driver/src/proto.hpp:217-225 | a wip_func_state_change decodes to its kind |
| Framing.ScanAppend | driver/src/net.hpp:205-228 | scanning more bytes continues from what was left over; after a bad length nothing changes any more |
| Framing.ScanWithin | driver/src/net.hpp:211-218 | every payload found is within the limit, and what is left over is at most three bytes longer than it |
| Framing.ScanConserves | driver/src/net.hpp:206-228 | framing what was found and adding what is left over gives the stream back |
| Framing.ScanFramed | driver/src/net.hpp:206-226 | scanning framed payloads finds exactly them, then whatever follows |
| Framing.ScanTorn | driver/src/net.hpp:216-218 | a frame that has not arrived completely yields nothing |
| Framing.ReceivedIsPrefix | driver/src/net.hpp:60-85 | any part of a stream of frames that may end in a torn one carries a prefix of the payloads, each whole, and no bad length |
| Client.BridgeClient.Send | driver/src/net.hpp:60-85 | the whole frame is offered in one write: it is accepted whole, or dropped without a trace, or the connection is shut down with at most one torn frame at the very end; the result of the write decides which |
| Client.BridgeClient.Reconnect | driver/src/net.hpp:143-179 | whatever the network thread does between two steps, the stream stays sound, and the accepted messages change only together with the generation |
| Client.BridgeClient.Drain | driver/src/net.hpp:53-57 | the whole queue is handed out; handed out plus queued stays what it was |
| Client.BridgeClient.Push | driver/src/net.hpp:220-223 | one message is added at the end, whether or not the frame thread drains first |
| Client.BridgeClient.TakeFrames | driver/src/net.hpp:206-226 | one pass over the buffer queues what its whole frames decode to, in order, and finds the leftover and the bad length the specification finds |
| Client.BridgeClient.ReadLoop | driver/src/net.hpp:181-230 | over every sequence of chunks the queue gains exactly what one pass over the whole stream decodes to; it stops early exactly at a bad length; the leftover is at most 65539 bytes and the largest buffer at most 73731 |
| Client.AfterChunk | driver/src/net.hpp:205-228 | the effect of one more chunk is determined by what the earlier ones left over |
| Client.ChunkingIndependent | driver/src/net.hpp:205-228 | however a stream is split, the frames, the stop at a bad length and the leftover are those of one pass |
| Client.RestIsIncomplete | driver/src/net.hpp:228 | the leftover never holds a whole frame |
| Bridge.RecvAll | bridge/bridge.c:106-118 | the buffer is filled with exactly the next bytes of the stream, or a read has found the connection ended after fewer bytes than asked for; bytes before it are untouched |
| Bridge.SockToPipe | bridge/bridge.c:120-150 | the pipe gets a prefix of the frames in the stream, each whole and in one write, and every way out says how far it came: all whole frames at the end of the stream, `closesAt` frames when `closing` is seen, a failed last write, or all frames before an oversized length |
| Bridge.PipeToSock | bridge/bridge.c:73-104 | the stream gets the frames of a prefix of the well-formed pipe messages, and every way out says how far it came: all of them when reading ends, those read before the turn that sees `closing`, or a last send cut short, which alone leaves a torn frame |
| Bridge.MalformedVanishes | bridge/bridge.c:87-90 | a message whose header does not match its size vanishes without disturbing its neighbours |
| Bridge.WellFormedIff | bridge/bridge.c:87-90 | a pipe message of up to 4096 bytes is relayed exactly when it is the frame of a payload |
| Bridge.FramedArrive | bridge/bridge.c:75-90 | framed messages of up to 4092 bytes all come out, in order, until a read fails |
| Pipeline.DriverToApp | driver/src/net.hpp:60-85 | end to end: over every run of full, dropped, partial and failed sends the pipe gets a prefix of the payloads for which `send` returned true, in order, each whole: all of them when the whole stream arrives and the relay reads it to its end, `closesAt` of them when it sees `closing`, and otherwise a pipe write failed; the oversize close never fires |
| Pipeline.SendAll | driver/src/net.hpp:60-85 | on one connection exactly the payloads for which `send` returned true are accepted, in order |
| Pipeline.AppToDriver | bridge/bridge.c:73-104 | end to end: the driver's queue gains what a prefix of the well-formed pipe messages decodes to, in order: all of them when the bridge reads to the end and the whole stream arrives, those read before `closing` was seen otherwise; the bad-length exit is never taken |
| Pipeline.TornPrefix | driver/src/net.hpp:82-84 | the receiving side of both: the frames of a received part are a prefix of the payloads, all of them if everything arrived, and a torn last frame is never mistaken for a message |
| Handshake.LastOfIsLast | driver/src/driver.cpp:560-568 | the index used for what the app was last told is that of the last message of its kind |
| Handshake.Kinds | driver/src/driver.cpp:557-576 | the four payloads the driver sends decode to kinds 3, 4, 5 and 1 |
| Handshake.StatusRead | driver/src/driver.cpp:560-562 | the status payload decodes to tracker 0 with status 1 for a tracking headset and 0 otherwise, and fits the bridge |
| Handshake.UniverseRead | driver/src/driver.cpp:1058-1061 | an app reads the yaw and position of the play space in the universe payload, which fits the bridge |
| Handshake.Logged | driver/src/driver.cpp:557-568 | only a status or a universe changes what the app has been shown |
| Handshake.OneReportInThirty | driver/src/driver.cpp:1040-1042 | over every run without a successful lookup or fallback, path_failed goes out once for every thirty failed searches, the first at once |
| Handshake.OneSearchASecond | driver/src/driver.cpp:1004-1008 | over every run, searches are at least a second apart |
| Handshake.KnownIsLastFound | driver/src/driver.cpp:1025-1033 | over every run, a known play space that is no fallback is what the last successful lookup gave, with the id it was looked up for |
| Handshake.RunFrames | driver/src/driver.cpp:488-577 | over every run of frames path_failed is handed to `send` once for every thirty failed searches, and a play space first known in the run is what the last successful lookup gave |
| Handshake.FrameCounts | driver/src/driver.cpp:488-577 | what a frame hands to `send`, counted by kind: path_failed when it reports, a status on a new connection, after a drop or on a change, a universe with every status, after a drop and with every replacement, a pose every 10 ms; nothing else |
| Handshake.FrameOrder | driver/src/driver.cpp:555-575 | and in this order |
| Handshake.PathFailedFirst | driver/src/driver.cpp:555-564 | on a connection without a status yet path_failed goes before the status exactly in a frame that reports |
| Handshake.FallbackSoundAlways | driver/src/driver.cpp:1044-1055 | over every run the fallback is raw tracking space, and three failed searches with the fallback allowed end in a known play space |
| Handshake.Provider.RunFrame | driver/src/driver.cpp:488-577 | with reconnects between any two steps: exactly the due messages are handed to `send`, in order; if the due ones of status and universe were sent, whatever became of path_failed and the pose, and no newer generation came, the last status the app got decodes to tracker 0 with status 1 if the headset tracks and 0 if not and, if the play space is known, the app reads its yaw and position in a universe that came after it; the flags always tell the truth about the connection they belong to |
| Handshake.Provider.NoteGeneration | driver/src/driver.cpp:502-506 | a new generation restarts the handshake, even when the generation changes between its two loads |
| Handshake.Provider.UpdateUniverse | driver/src/driver.cpp:990-1056 | a search runs exactly when the id is readable, not already known, and a second has passed; a successful one takes over yaw and position of the universe found with the id read, makes it due again and clears the failures; a failed one counts, reports on the first of thirty, and falls back to raw space from the third if allowed; otherwise nothing changes |
| Handshake.Provider.NotFound | driver/src/driver.cpp:1036-1055 | a failed search counts, reports on the first of thirty, and falls back from the third on if that is allowed |
| Handshake.Provider.SendPathFailed | driver/src/driver.cpp:1041 | a payload in which an app reads 1 without a default chaperone file and 2 with one is handed to `send`, and leaves what the app was shown of status and universe as it is |
| Handshake.Provider.Greet | driver/src/driver.cpp:557-568 | exactly the due ones of status and universe are handed to `send`, in this order; if both are sent both flags end up set |
| Handshake.Provider.GreetStatus | driver/src/driver.cpp:560-563 | a status is handed to `send` exactly when none was sent on this connection or the headset's state has changed |
| Handshake.Provider.GreetUniverse | driver/src/driver.cpp:565-568 | the universe is handed to `send` exactly when it is known and a status was due or it was not sent yet; otherwise the flag stays |
| Handshake.Provider.SendStatus | driver/src/driver.cpp:561-564 | a payload that decodes to tracker 0 with status 1 for a tracking headset and 0 otherwise is handed to `send`, the flag is its result, and a sent status is the last one the app got; the universe is due again after it |
| Handshake.Provider.SendUniverse | driver/src/driver.cpp:1058-1061 | a payload in which an app reads the yaw and position of the play space is handed to `send`, the flag is its result, and a sent universe is the last one the app got, after the status |
| Handshake.Provider.SendHmdPose | driver/src/driver.cpp:572-575 | a payload that decodes to tracker 0 with the pose's bytes is handed to `send` exactly when 10 ms have passed since the last one, and disturbs nothing |
| Handshake.Provider.Interfere | driver/src/net.hpp:143-179 | the flags stay true whatever the network thread does between two steps |
| Descriptor.StepKeepsInvariant | driver/src/net.hpp:143-179 | every step of either thread keeps lock, descriptor and generation in agreement |
| Descriptor.InvariantAlways | driver/src/net.hpp:143-179 | over every interleaving |
| Descriptor.NoStaleDescriptor | driver/src/net.hpp:60-85 | in every interleaving a send or shutdown touches only the descriptor of the connection that is open now, never a closed or reused number, and a frame that saw a connection reads a generation at least as new |
| Teardown.InvariantAlways | bridge/bridge.c:64-104 | the invariant of a session over every interleaving of its two threads |
| Teardown.StepKeepsInvariant | bridge/bridge.c:64-150 | every step of both threads keeps the invariant of a session |
| Teardown.TeardownSafe | bridge/bridge.c:64-71 | the shutdown block is entered exactly once by the end of a session, at most one message is read after `closing` is set, pipe and socket are closed only when the reader has exited |
| Teardown.OnlyErrorsEnd | bridge/bridge.c:73-150 | only a failed call ends a session: without one both threads go on, whatever is relayed or dropped as malformed |
| Teardown.CancelLoopProgress | bridge/bridge.c:234-237 | each cancel followed by a turn of the reader brings it closer to its exit, even if a read starts after an earlier cancel |
| Teardown.CancelLoopEnds | bridge/bridge.c:235-237 | at most seven such rounds fit any schedule, and then the reader has exited |
| Teardown.ReadAfterCancel | bridge/bridge.c:234-236 | one cancel is not enough: a schedule in which the reader blocks after it |
| Teardown.MainLeaves | bridge/bridge.c:125-150 | once the session is closing the main thread leaves its loop after at most four turns that get something done: the rest of a receive, a write, and a look at `closing` |
| Teardown.MainWaitsIff | bridge/bridge.c:64-71 | a turn of the main thread in its loop can bring nothing exactly in a write that no cancel has hit or in a receive before the shutdown |
| Teardown.WriteAfterCancel | bridge/bridge.c:64-71 | a schedule after which the reader is gone, its one cancel came before the main thread's write, and only the app can end that write |
| Teardown.FinishWorks | bridge/bridge.c:235-241 | every closing session, wherever its two threads are, can be brought to its end |
| Hooks.State.UpdateScalar | driver/src/input_hooks.hpp:130-149 | an axis update is recorded in the stick that has the handle, withheld exactly while that stick is overridden, and shown by the host otherwise; what the host has been told grows by it, and the promise to the host holds on |
| Hooks.State.UpdateTouch | driver/src/input_hooks.hpp:151-166 | the same for touch |
| Hooks.State.Drive | driver/src/input_hooks.hpp:249-299 | released exactly for no speed, no hand or an incomplete stick; a deflected stick's vector is the real one stretched to the speed, a centred one's points along the caller's unit vector, in the same sense, as long as the speed; writes, override and what the host is told are exact, and the promise holds afterwards |
| Hooks.State.Inject | driver/src/input_hooks.hpp:286-298 | nothing is written when the stick already shows this vector; otherwise both axes and touch |
| Hooks.State.Release | driver/src/input_hooks.hpp:256-264 | updates pass through again and the host shows the recorded real values |
| Hooks.State.Remember | driver/src/input_hooks.hpp:71-107 | a stick component joins the list, the oldest leaves at 64, other components leave it alone |
| Hooks.State.ResolvePending | driver/src/input_hooks.hpp:206-245 | the sticks, the kept list and the result are those of the specification, and captures that leave the overridden stick alone keep the promise |
| Hooks.ScalarKeeps | driver/src/input_hooks.hpp:130-149 | the promise survives an axis update, forwarded or withheld |
| Hooks.TouchKeeps | driver/src/input_hooks.hpp:151-166 | and a touch update |
| Hooks.ReleaseKeeps | driver/src/input_hooks.hpp:256-264 | and a release: the host shows the real values again |
| Hooks.InjectKeeps | driver/src/input_hooks.hpp:290-298 | and an injection: the host shows the injected vector and touch |
| Hooks.CaptureKeeps | driver/src/input_hooks.hpp:229-234 | and a capture, for the components told since |
| HookLaws.RecordsLast | driver/src/input_hooks.hpp:141-159 | over every run no handle changes and the recorded values of every captured component are the last ones sent |
| HookLaws.Run | driver/src/input_hooks.hpp:130-299 | over every run of updates and Drive calls the host shows the injected vector and touch on the one overridden stick; on every other stick it shows the last value sent to each captured component updated in the run, and to all of them if the stick was overridden at any point |
| HookLaws.PromisedMeans | driver/src/input_hooks.hpp:130-166 | that promise handle by handle: the injected axes and touch on the overridden stick, the last values sent to each captured component of the others |
| HookLaws.TellsAll | driver/src/input_hooks.hpp:141-163 | over every run, what was withheld from a stick has been told by the time its override is over |
| HookLaws.InjectedLength | driver/src/input_hooks.hpp:274-284 | steered by the real stick or centred, the injected vector has the speed as its length |
| HookLaws.InjectedDirection | driver/src/input_hooks.hpp:280-284 | steered by the real stick, the injected vector has its direction and sense |
| HookLaws.InjectedCentred | driver/src/input_hooks.hpp:274-279 | the vector injected into a centred stick is parallel to the caller's direction, in the same sense, and as long as the speed |
| HookLaws.KeptInOrder | driver/src/input_hooks.hpp:217-223 | the kept entries are exactly those with an unreadable role, in their old order |
| HookLaws.AxisOfIff | driver/src/input_hooks.hpp:81-94 | a name decides the part: x or y of a joystick or thumbstick for a scalar, touch for a boolean, and nothing otherwise |
| HookLaws.AssignsLast | driver/src/input_hooks.hpp:229-233 | after the list has been worked on, each handle is that of the last entry whose device's role and part of a stick claim it, owner and device are those of the hand's last entry, and everything else is unchanged |
| HookLaws.CompletedMeansNewlyComplete | driver/src/input_hooks.hpp:230-234 | the result is true exactly when a stick is complete now that was not before |
| HookLaws.PendingBounded | driver/src/input_hooks.hpp:102-106 | over every run of creations and of work on the list it stays within 64 exactly when it starts so and what arrived during each work fits beside the entries whose role could not be read |
| HookLaws.CreationsNeverShrink | driver/src/input_hooks.hpp:102-106 | after any number of creations the newest components stay: a list over the bound keeps its length, a shorter one grows to 64 at most |
| HookLaws.HandleList | driver/src/input_hooks.hpp:206-245 | the two methods do to the list what these laws reason about |
| HookLaws.PendingCanExceed | driver/src/input_hooks.hpp:237-240 | a full list of unreadable roles and one component created meanwhile make 65 |
| OverrideRace.FrameStep | driver/src/input_hooks.hpp:249-299 | every atomic step keeps the frame thread's place in agreement with the flag |
| OverrideRace.CellStep | driver/src/input_hooks.hpp:130-166 | every atomic step keeps each component accounted for |
| OverrideRace.InvariantAlways | driver/src/input_hooks.hpp:130-299 | over every interleaving of the frame thread with any number of hook threads |
| OverrideRace.NoLostUpdate | driver/src/input_hooks.hpp:141-145 | in every interleaving, once a stick is neither overridden nor still to be written back, the last release has written the newest withheld value or a later one |
| OverrideRace.ShowsNewestIff | driver/src/input_hooks.hpp:256-263 | when all is quiet the host shows the newest real value exactly when it was never written, or no driver stored one between the step that determined the last value written (its store, or the release's load) and the write |
| OverrideRace.LastWriteDecides | driver/src/input_hooks.hpp:256-263 | the same of any way to point out that last write in the schedule |
| OverrideRace.LastWriteExists | driver/src/input_hooks.hpp:141-149 | a quiet end after some write has a last one, of a real value, with the step that determined it before it |
| OverrideRace.ShowsInjectedIff | driver/src/input_hooks.hpp:286-298 | with the frame thread idle during an override, the host shows the injected value of a component exactly when its last write in the schedule is the injection, and a real value exactly when it is a forward |
| OverrideRace.ForwardOverInjection | driver/src/input_hooks.hpp:286-288 | a schedule with one updating thread after which the overridden stick shows a real value, with no call in progress |
| OverrideRace.OlderWriteBackWins | driver/src/input_hooks.hpp:256-263 | a schedule with one updating thread after which the host shows an older value than the newest |
| WalkInPlace.Treadmill.SetStick | driver/src/driver.cpp:380-392 | the treadmill's stick takes the value while active; the host shows the last value afterwards exactly if it did before or a different value was told |
| WalkInPlace.Treadmill.Activate | driver/src/driver.cpp:286-341 | activation creates new components and keeps the last value: the host shows it exactly when it is the centre |
| WalkInPlace.Treadmill.SetConnected | driver/src/driver.cpp:365-378 | a disconnect centres an active treadmill's stick |
| WalkInPlace.Walker.OnWipSetting | driver/src/driver.cpp:679-718 | hand, stick control, mode and treadmill follow the message; a repeated mode leaves speed, walking and override alone, a new one clears them and connects the treadmill exactly when it is the output |
| WalkInPlace.Walker.ChangeMode | driver/src/driver.cpp:692-717 | speed and walking are cleared, the stick is released and told its real values, the treadmill follows the mode |
| WalkInPlace.Walker.OnWipInfo | driver/src/driver.cpp:720-735 | the speed is field x clamped to 0..1, or 0 for a stop; walking starts with status 3 and ends with 0 and 2 |
| WalkInPlace.Walker.WaistStickDirection | driver/src/driver.cpp:789-850 | a unit vector, from the first waist tracker with a fresh direction or forward if there is none; `now` is the one clock reading used for all trackers |
| WalkInPlace.FirstFacingAt | driver/src/driver.cpp:789-797 | the direction taken is that of the waist tracker before which no waist tracker has a fresh one |
| WalkInPlace.Walker.UpdateWalkInPlace | driver/src/driver.cpp:737-784 | once a second the remembered components are given to the hands by their roles and the unreadable ones kept; every 10 ms an output, and a driven stick's vector has the speed's length and follows the real stick or else the waist; refines the step function of the run laws |
| WalkInPlace.Walker.ResolveHands | driver/src/driver.cpp:737-741 | more than a second after the last time, with the hooks installed, every handle becomes the last claim of the list and the unreadable entries stay behind those that arrived; otherwise nothing changes |
| WalkInPlace.Walker.PutOut | driver/src/driver.cpp:755-784 | no output within 10 ms of the last; otherwise the speed is cleared after a second of silence and put out |
| WalkInPlace.Walker.Output | driver/src/driver.cpp:766-783 | the speed goes to the y axis of an active treadmill, with x centred, or to the stick, in the direction of the real stick or else of the waist |
| WalkInPlace.Walker.DriveStick | driver/src/driver.cpp:776-783 | overridden exactly with a speed and a captured stick; the vector is the real stick's direction, or on the axes of the reference device the waist direction, or straight ahead if an input is missing, times the speed |
| WalkInPlace.DrivenFollows | driver/src/driver.cpp:775-783 | the same of the override for every stick, hand, speed and input |
| WalkInPlace.Walker.HandleMessages | driver/src/driver.cpp:508-540 | the messages of a frame are handled in their order |
| WalkInPlace.Walker.RunFrame | driver/src/driver.cpp:488-555 | messages while connected, in order, then the update with its work on the pending components |
| WalkLaws.DrivenExactlyWhen | driver/src/driver.cpp:755-783 | an output that is due overrides a stick exactly when walk-in-place is open and injects, connected, walking if the stick asks, heard within a second, faster than 0.03, and captured |
| WalkLaws.TreadmillExactlyWhen | driver/src/driver.cpp:765-772 | the treadmill's y axis shows the speed under the same condition, and 0 otherwise |
| WalkLaws.RepeatedSetting | driver/src/driver.cpp:678-690 | repeating a setting disturbs nothing |
| WalkLaws.StopObeyed | driver/src/driver.cpp:720-735 | the last wip_info of a frame decides: after a stop the next output that is due puts nothing out |
| WalkLaws.NoInfo | driver/src/driver.cpp:690-695 | other messages keep speed and walking, or clear both with a change of mode |
| WalkLaws.MessagesKeep | driver/src/driver.cpp:509-540 | messages never start an output; they keep what bounds it |
| WalkLaws.UpdateKeeps | driver/src/driver.cpp:755-783 | after an update an override is either new, connected and fresh, or less than 10 ms old |
| WalkLaws.RunBacked | driver/src/driver.cpp:488-577 | over every run an override is backed by a recent connected output of a recent speed |
| WalkLaws.OverrideIsRecent | driver/src/driver.cpp:755-764 | over every run an override means open, injecting, less than 1010 ms since the last wip_info was handled and less than 10 ms since a connected output |
| WalkLaws.EndsAfterSilence | driver/src/driver.cpp:761-764 | with frames at most D apart the override ends within 1010 ms + D of the frame that handled the last wip_info |
| WalkLaws.BackedByReceipt | driver/src/driver.cpp:488-540 | over every run an override is backed by the last wip_info handled, received less than 1010 ms + G ago if a connected frame ran at most G before the one that handled it |
| WalkLaws.FreshIffPrompt | driver/src/driver.cpp:490-508 | a message is surely at most G old when it is handled exactly when a connected frame ran at most G before |
| WalkLaws.EndsAfterLastReceipt | driver/src/driver.cpp:490-508 | with such frames the override ends within 1010 ms + 2 G of the last receipt |
| WalkLaws.FreshAfterOutage | driver/src/driver.cpp:490-508 | a wip_info received before an outage of any length, with any frames in it, starts an override after it |
| WalkLaws.EndsAfterDisconnect | driver/src/driver.cpp:489-500 | and within 10 ms + D of a disconnect that lasts |
| WalkLaws.BothIff | driver/src/driver.cpp:692-717 | over every run a hand's stick is overridden while the treadmill's is moved exactly when it is overridden and the last change of mode found the treadmill inactive with its stick moved |
| WalkLaws.ModeChangeCentres | driver/src/driver.cpp:365-378 | a change of mode away from the treadmill leaves its stick moved exactly when the treadmill is inactive and moved |
| WalkLaws.NeverBoth | driver/src/driver.cpp:697-717 | without a deactivation in the run a hand's stick and the treadmill's are never driven together |
| WalkLaws.BothAfterDeactivation | driver/src/driver.cpp:380-383 | after a deactivation the treadmill's last value can stay while a hand's stick is driven |
| CaptureLaws.Handle | driver/src/driver.cpp:737-741 | the program does to the sticks and the list what the following runs reason about |
| CaptureLaws.CapturedBy | driver/src/input_hooks.hpp:206-245 | over every run a listed component with a readable role is captured by the first frame more than a second after the list was last worked on, unless so many are created that it is dropped; only a later claimant takes its place |
| CaptureLaws.CompleteAfter | driver/src/input_hooks.hpp:206-245 | a stick whose x and y are listed is complete from then on |
| CaptureLaws.CompleteInTime | driver/src/driver.cpp:737-741 | with frames at most D apart that is within a second and D |
| Tracker.Tracker.OnPosition | driver/src/driver.cpp:185-215 | applies what the position carries, attaches the transform, restores OK after a timeout and only then, and submits the flags of the status |
| Tracker.Tracker.OnStatus | driver/src/driver.cpp:217-232 | the app's status replaces the tracker's and ends a timeout; only a disconnected tracker is submitted as not connected, and only an OK one as valid |
| Tracker.Tracker.CheckTimeout | driver/src/driver.cpp:236-246 | three seconds of silence disconnect; the refreshed time stamp does not count as fresh |
| Tracker.Tracker.FloorForward | driver/src/driver.cpp:98-116 | the tracker's forward axis from above as a unit vector, exactly when the tracker is active and OK, its last message at most 500 ms old and the axis not almost vertical |
| Tracker.Handle | driver/src/driver.cpp:185-246 | the methods do to the standing what the run laws below reason about |
| Tracker.SoundAlways | driver/src/driver.cpp:185-258 | over every run an OK status has a real message behind its time stamp and a timed-out tracker is disconnected |
| Tracker.StatusFollows | driver/src/driver.cpp:200-242 | over every run: the app's status stands until a timeout strikes; from then on positions give OK and silence gives disconnected |
| Tracker.FaultForgotten | driver/src/driver.cpp:200-203 | an app-reported fault followed by a timeout and one position becomes OK |
| Pose.PoseRoundTrip | driver/src/driver.cpp:1076-1095 | the transform attached to trackers undoes the one applied to the headset, on every position and orientation, for every play space |
| Pose.SameRotation | driver/src/driver.cpp:1081-1095 | position and orientation undergo the same rotation |
| Pose.FrameOrigin | driver/src/driver.cpp:1076-1095 | which way is which: the standing frame's origin is at -t in raw space and its forward axis is -Z turned by yaw |
| Pose.AboutY | driver/src/driver.cpp:210 | the attached quaternion turns by the full yaw about Y |
| Pose.MulAssociative | driver/src/driver.cpp:207-210 | composing the attached rotation with a pose is associative, as the inversion needs |
| Pose.MatrixIsRotation | driver/src/driver.cpp:1064 | the matrix of a unit quaternion has the turned axes as its columns |
| Pose.QuatOfMatrix | driver/src/driver.cpp:1066-1069 | the conversion of such a matrix gives the magnitudes of the quaternion with the signs of w*x, w*y, w*z |
| Pose.OrientationRecoveredIff | driver/src/driver.cpp:1066-1069 | it gives the quaternion or its negative exactly when w is not 0 or no two of x, y, z have opposite signs |
| Pose.HalfTurnMisread | driver/src/driver.cpp:1066-1069 | a half turn that is read as another orientation |
| Pose.FloorAxisIsForward | driver/src/driver.cpp:103-105 | the floor axis is the forward vector turned by the orientation, seen from above |
| Pose.OnAxesRecombines | driver/src/driver.cpp:848-850 | the stick direction is a unit vector, and recombining it with the reference axes gives the waist direction |
| Pose.StickDirectionRecombines | driver/src/driver.cpp:789-850 | the stick direction on the reference axes is the waist direction; without one or the other it is straight ahead |
| Pose.ReferenceIs | driver/src/driver.cpp:827-846 | the reference is the device's -Z axis from above, turned into the standing frame if the play space is known, unless it is almost vertical |
| Pose.StickDirectionIsUnit | driver/src/driver.cpp:789-850 | with any input missing or present the stick direction is a unit vector |

## Left out

- Socket, pipe and Win32 calls: each is a call that may return anything its contract in `Transport` allows. Assumed: bytes of a TCP stream arrive in order as a prefix, a shut-down socket takes no more, a pipe message is never split, a write reported as failed may have been delivered.
- Two threads at once inside `Client` and `Handshake`: the network thread's actions are placed between the steps of the frame thread, which holds the send lock during a send; `Descriptor` has the finer interleaving.
- Hooks.State.UpdateScalar: one step, with distinct nonzero handles; the atomic loads and stores inside it are those of `OverrideRace`.
- HookLaws.Run: after capture; values sent before a stick is captured are not recorded by the code, and a capture that changes an overridden stick's handles is excluded by `CaptureSafe`.
- OverrideRace.NoLostUpdate: handles do not change during the run, and the captured touch components are fixed at its start.
- Pose.PoseRoundTrip: over the reals; IEEE rounding, the narrowing of positions to floats, NaN and signed zero are not modelled, here or in stick and speed arithmetic.
- AppMessages.ReadsWhatWasWritten: field numbers up to 15 and packed repeated fields, which is all the schema has; unpacked ones are in `ProtoLaws.MixedRuns`.
- WalkLaws.EndsAfterSilence: the frame gap D is an assumption about SteamVR, as in every statement of a deadline.
- CaptureLaws.CompleteInTime: the hooks are installed, and both axes stay listed, which they do unless 64 newer components arrive first.
- Tracker.Tracker.FloorForward: the clock is read once per call; battery reports and device properties are not modelled.
- Handshake.Provider.UpdateUniverse: the chaperone lookup is an oracle that gives a universe or nothing; JSON and file access are not modelled.
- Handshake.Provider.SendHmdPose: the pose is given as bytes; its mathematics is in `Pose`.
- WalkInPlace.Walker.WaistStickDirection: the reference device's axis is given or missing; finding the device by its property container is not modelled.
- WalkInPlace.Walker.ConnectTreadmill: SteamVR accepts or rejects the device and may activate it at once or later; its components and properties are not modelled.
- The generation counter, the failure counter and the count of foreign components are unbounded; wrap-around is not modelled.
- Weak memory: the atomics are sequentially consistent, which is their default.
- Removing the hooks (`driver/src/input_hooks.hpp:194-202`) writes no real values back; modelled runs end before it.
- Patching of virtual tables, both `Install` functions, the pose hook and hand pose replacement: memory protection and type casts, and one short branch sequence.
- Adding trackers, unknown ids, hand poses in a frame, settings, logging, launchers, scripts and test rigs.
- Opening the pipe and connecting with retries: loops around system calls without state of their own.
