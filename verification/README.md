# NoPorts: verification of the daemons' state machines, streams and codecs

A Dafny 4.11 model of the parts of NoPorts that carry sessions through a relay and decide who may open them, with
proofs. It covers the C daemon (`sshnpd`) and its relay process (`srv`), and their twins on the ESP32. Code that changes
things in place is modelled by classes, arrays and loops, each proved against a pure function; what the code is for is
then proved about that function, over all inputs and over whole runs. `dafny verify dfyconfig.toml` checks everything.

What comes from outside is a parameter of each step, and any value of it is allowed that the outside can give: what a
socket's read or write returns, the clock, process ids, whether memory can be had, what the policy service answers.
Ciphers and signatures are functions that nothing is known about.

## The parts

- **Streams.** `CtrStream` has the AES-CTR transformer over an uninterpreted block cipher and shows it to be CTR mode
  however a stream is cut. `SessionKeys` sets the two transformers of a session up from base64. `SideThread` is one of
  the two threads of the C relay. `RelayStream`, `RelaySub` and `RelayLoop` are the ESP32's loop over many
  sub-connections: one direction, one slot with two, and the table of slots with its socket budget and evictions;
  `RelayHistory` has what each slot has passed on since it was connected.
- **Control channel.** `ControlLines` has both readers of lines, `ConnectMessage` both parsers of a connect request.
- **Lifecycle in srv.** `SocketPair` interleaves the main thread with two relay threads on every failure path;
  `SessionCounter` interleaves the control loop with the ends of sessions.
- **Children of the daemon.** `ClientSessions` and `KeyChecks` watch sessions' keys, `SrvStarts` the starts of srv processes,
  `ReadyPipe` the output that a start is told by, and `DaemonChildren` puts them under one reaper.
- **Policy.** `AtSign` is the canonical form everything is keyed by; `PolicyCache`, `PolicyThrottle` and `PolicyGate`
  are the daemon's gate, `PolicyWait` its wait for an answer; `PolicyCooldown`, `PolicySlot`, `PolicySlotRuns`,
  `PolicyAsked`, `PolicyEffects` and `PolicyClient` are the ESP32's throttle and its single asynchronous slot.
- **Codecs and arithmetic.** `Text` and `PermitOpen` parse the permit-open list in place, `PermitMatch` compares the
  three matchers; `Base64`, `Json` and `Escr` build and read the challenge response; `CivilDate` and `NtpClock` are the
  display's date arithmetic and clock.

`Wrappers`, `Tables` and `Chunks` hold what several parts share.

## What the code does that its documentation does not say

- An empty entry before another one desynchronises the permit-open parser: `,22:80` gives the host `""` with port 22, and
  so does the malformed `,22:abc`. `PermitOpen.ParsedIsMeaningExactly` has the exact condition, for every argument.
- The header of the policy module has a rule's port of 0 match any port; the code rejects it, and only `*` is a wildcard
  (`PermitMatch.PortZeroPermitsNothing`, `PermitMatch.OnlyStarIsAnyPort`).
- The slot an eviction takes is called the longest idle; the code compares the stamps themselves, which differs when the
  millisecond counter has wrapped since some slots were last active but not since the one taken was
  (`RelayLoop.VictimIsLongestIdle`, `RelayLoop.OldestIsLongestIdle`; an input in `RelayLoop.ShorterIdleIsTaken`).
- A srv whose relay threads both fail to write their notices waits for ever on its pipe (`SocketPair.BothLost`); one
  notice is enough (`SocketPair.NeverStuck`).
- `strtoul` takes a port such as `-18446744073709551615` for 1, so the daemon's rules are looser there than the ESP32's
  (`Text.ReadingsDiffer`, `PermitMatch.EspIsStricter`).
- The ESP32 keeps 63 characters of a sender's name while its check is in flight, sends a request again under that name
  and caches the decision under it. Unless it is dots only that are cut off, that is another name
  (`PolicySlotRuns.SlotNamesTheSender`): a decision can then be used for another sender (`PolicyAsked.CutToAnother`) and
  what is handed on can rest on a reply about another. `PolicyAsked.RestsExactlyWhenNamed` has the exact condition.
- A connect message with three fields, with more than four, with empty ones or with blanks at its end is mostly taken
  differently by the two daemons (`ConnectMessage.ParsersAgreeExactly` says exactly when not).
- The hour's limit on a clock change is taken of a 32-bit `long`, so a change of a whole turn passes
  (`NtpClock.WholeTurnIsAccepted`).
- The report of a srv is missed if it straddles the point where the buffer starts over (`ReadyPipe.FoundIffInSomeBlock`);
  srv writes it first, where it is found (`ReadyPipe.EarlyReportIsFound`).

## Model

| member | source | states |
|---|---|---|
| `CtrStream.CryptIsCtrMode` | packages/c/srv/src/srv.c:710-725 | a call made anywhere in a stream gives the bytes that CTR mode has for that position, and leaves the state of the position after them |
| `CtrStream.ChunksAreCtrMode` | packages/arduino/lib/NoPorts/src/noports_relay.cpp:769-774 | calls on successive chunks, state carried along, give CTR mode's bytes for the whole stream |
| `CtrStream.AnySplitIsOneCall` | packages/c/srv/src/srv.c:639-725 | from the state a transformer is set up in, any split of a stream into calls, down to single bytes, is one call on all of it |
| `CtrStream.PeerRecovers` | packages/c/srv/src/side.c:82-121 | a peer with the same key and iv recovers the plaintext whatever chunks each end uses |
| `CtrStream.Transformer.TransformByte` | packages/c/srv/src/srv.c:710-725 | one byte: the block, offset and counter fields move as the step function says, a fresh key-stream block being made only at offset 0 |
| `CtrStream.Transformer.Transform` | packages/c/srv/src/srv.c:710-725 | the object's fields and the output buffer after a call are those of CTR mode's byte-by-byte definition; nothing past the length is written |
| `SessionKeys.CreatedFromEncoded` | packages/c/srv/src/srv.c:639-680 | exactly a 32-octet key and a 16-octet iv make a transformer |
| `SessionKeys.SessionRecovers` | packages/c/srv/src/srv.c:682-708 | with one key or two, client and daemon recover each other's streams in both directions, whatever the chunks |
| `SessionKeys.CreateTransformer` | packages/c/srv/src/srv.c:639-680 | a transformer in CTR mode's first state exactly when both texts decode to the right sizes, otherwise none |
| `SessionKeys.CreateEncrypterAndDecrypter` | packages/c/srv/src/srv.c:682-708 | both transformers or neither; the decrypter has the client's key, the encrypter its own key if there are two |
| `SessionKeys.BigEndianIsCounter` | packages/c/srv/src/srv.c:668-677 | an iv, read with its first octet the most significant, is below 256 to the power of its length, so that 16 octets are a counter block |
| `SessionKeys.OctetIsDigit` | packages/c/srv/src/srv.c:668-677 | each octet of the iv is the digit of its place in the first counter, the first octet's the highest |
| `SessionKeys.LastOctetCounts` | packages/c/srv/src/srv.c:668-677 | an iv whose last octet is one more starts one counter later |
| `RelayStream.PassOk` | packages/arduino/lib/NoPorts/src/noports_relay.cpp:2014-2126 | any pass of one direction keeps it in order: what the destination accepted is a prefix of the transform of what was read, and until a hard write error accepted and parked bytes together are that transform exactly, at most one chunk being parked |
| `RelayStream.PassesOk` | packages/arduino/lib/NoPorts/src/noports_relay.cpp:1890-2003 | the same over any number of passes |
| `RelayStream.PeerSeesPrefix` | packages/arduino/lib/NoPorts/src/noports_relay.cpp:2014-2126 | from a fresh connection, after any passes, the far side has a prefix of the transform of the bytes read, and all but what is parked as long as no write failed |
| `RelayStream.PassTakes` | packages/arduino/lib/NoPorts/src/noports_relay.cpp:2014-2126 | a pass accepts as many bytes as its writes took, takes in what its read gave and parks what is left, counted from what the sockets did |
| `RelayStream.PeerGetsWhatWasTaken` | packages/arduino/lib/NoPorts/src/noports_relay.cpp:2014-2126 | since it was opened, the destination has got exactly the first bytes of the transform of all the source gave, as many as its writes took |
| `RelayStream.ForwardOk` | packages/arduino/lib/NoPorts/src/noports_relay.cpp:2038-2070 | reading, transforming, writing in part and parking the rest keeps the stream in order |
| `RelayStream.FlushOk` | packages/arduino/lib/NoPorts/src/noports_relay.cpp:2019-2037 | writing parked bytes, in part or whole, keeps the stream in order |
| `RelayStream.ShiftDown` | packages/arduino/lib/NoPorts/src/noports_relay.cpp:2019-2037 | the memmove of what is left: the bytes from the offset on, at the front of the buffer |
| `RelayStream.Half.Open` | packages/arduino/lib/NoPorts/src/noports_relay.cpp:997-1038 | a direction starts a new stream with the key it is given; what is parked is left as it is |
| `RelayStream.Half.WriteParked` | packages/arduino/lib/NoPorts/src/noports_relay.cpp:2019-2037 | the buffers and counters after a write of parked bytes are those of the pure step |
| `RelayStream.Half.Relay` | packages/arduino/lib/NoPorts/src/noports_relay.cpp:2038-2070 | the buffers and counters after a read and a partial write are those of the pure step |
| `RelayStream.Half.Serve` | packages/arduino/lib/NoPorts/src/noports_relay.cpp:2014-2126 | one pass of a direction, parked bytes first, is the pure pass |
| `RelaySub.VisitedOk` | packages/arduino/lib/NoPorts/src/noports_relay.cpp:1890-2003 | one visit of a slot, relaying, draining or closing, keeps both directions in order, and a closed slot empty |
| `RelaySub.NormalOk` | packages/arduino/lib/NoPorts/src/noports_relay.cpp:2004-2168 | a visit to a live slot keeps both directions in order, whichever write fails or peer closes |
| `RelaySub.DrainOk` | packages/arduino/lib/NoPorts/src/noports_relay.cpp:1890-2003 | a drain pass keeps both directions in order and closes the slot when nothing moved, a write failed or the cap is reached |
| `RelaySub.DrainClosesExactly` | packages/arduino/lib/NoPorts/src/noports_relay.cpp:1890-2003 | a drain stays open exactly while it is within its cap, no write fails, and bytes moved or the local peer is open |
| `RelaySub.NormalClosesExactly` | packages/arduino/lib/NoPorts/src/noports_relay.cpp:2004-2168 | a live slot is closed exactly when a peer has closed or nothing has moved for 15 minutes, starts to drain exactly when a write fails, and has its clock set exactly when bytes move |
| `RelaySub.VisitFollows` | packages/arduino/lib/NoPorts/src/noports_relay.cpp:1890-2168 | a visit is just one pass over each direction, but for a drain at its cap or whose first write fails |
| `RelaySub.VisitCounts` | packages/arduino/lib/NoPorts/src/noports_relay.cpp:1920-1930 | a visit keeps a slot's two byte counts those of what it has read, as 32 bits keep them |
| `RelaySub.RelaySlot.Close` | packages/arduino/lib/NoPorts/src/noports_relay.cpp:781-801 | closing clears the slot's flags, parked bytes and transformers |
| `RelaySub.RelaySlot.Relay` | packages/arduino/lib/NoPorts/src/noports_relay.cpp:2004-2168 | a visit to a live slot is the pure visit, buffers included |
| `RelaySub.RelaySlot.DrainOnce` | packages/arduino/lib/NoPorts/src/noports_relay.cpp:1890-2003 | a drain pass is the pure one, buffers included |
| `RelaySub.ConnectedOk` | packages/arduino/lib/NoPorts/src/noports_relay.cpp:997-1084 | a slot that is used again is in order and starts with nothing parked, because the close that freed it left nothing |
| `RelaySub.RelaySlot.Connect` | packages/arduino/lib/NoPorts/src/noports_relay.cpp:997-1084 | taking a slot for new sockets is that, on the buffers themselves |
| `RelayLoop.EveryReachableStateOk` | packages/arduino/lib/NoPorts/src/noports_relay.cpp:1826-2169 | in every state the loop can reach, over all partial writes, drains, evictions (for want of heap too) and reuse of slots, each slot has accepted a prefix of the transform of what was read, and all but what is parked until a write fails, with at most one chunk parked, and the sockets are within the budget |
| `RelayLoop.ReachableOk` | packages/arduino/lib/NoPorts/src/noports_relay.cpp:1826-2169 | the same for the states of any run, by index |
| `RelayHistory.EverySlotPassesOn` | packages/arduino/lib/NoPorts/src/noports_relay.cpp:1826-2169 | in every state of every run each destination of a slot has got, since the slot was last connected, exactly the first bytes of the transform of all the other side gave, as many as its writes took: none is lost, repeated or out of place |
| `RelayHistory.RunFollowsHistory` | packages/arduino/lib/NoPorts/src/noports_relay.cpp:1826-2169 | each slot's two directions are what the passes made since its last connect make of new ones, over closes, evictions and reuse |
| `RelayHistory.EverySlotCounts` | packages/arduino/lib/NoPorts/src/noports_relay.cpp:1920-1930 | the byte counts of a slot in use are of what it has read since it was connected |
| `RelayLoop.ConnectStepOk` | packages/arduino/lib/NoPorts/src/noports_relay.cpp:904-1098 | a connect request, with reclaiming, budget check, eviction and choice of slot, keeps every slot in order and the sockets within the budget |
| `RelayLoop.ServedExactly` | packages/arduino/lib/NoPorts/src/noports_relay.cpp:904-1098 | a connect is served exactly when its sockets can be connected, there is room or an idle slot to give way, and heap isn't low unless no other slot is active; and then one slot has just that connection |
| `RelayLoop.EvictsExactly` | packages/arduino/lib/NoPorts/src/noports_relay.cpp:926-989 | an idle slot gives way exactly when the sockets are short, or all slots are taken and the heap isn't the reason to refuse |
| `RelayLoop.ConnectChangesOnly` | packages/arduino/lib/NoPorts/src/noports_relay.cpp:904-1098 | of the other slots just those reclaimed or evicted are closed, and the rest are as they were |
| `RelayLoop.HeapEvictsExactly` | packages/arduino/lib/NoPorts/src/noports_relay.cpp:2237-2263 | for want of heap exactly one active slot is closed, one with the smallest stamp, if any is active whose stamp isn't the largest number |
| `RelayLoop.VisitStepOk` | packages/arduino/lib/NoPorts/src/noports_relay.cpp:1890-2169 | a round of visits to all slots keeps them in order and opens no socket |
| `RelayLoop.ConnectSparesBusySubs` | packages/arduino/lib/NoPorts/src/noports_relay.cpp:861-881 | a connect request leaves as it is every active slot that isn't closed by both its peers and has data waiting or moved some within the grace period |
| `RelayLoop.VictimIsLongestIdle` | packages/arduino/lib/NoPorts/src/noports_relay.cpp:861-881 | the slot that makes way is the longest idle exactly when the millisecond counter has wrapped since it was last active, or hasn't since any evictable slot was |
| `RelayLoop.ShorterIdleIsTaken` | packages/arduino/lib/NoPorts/src/noports_relay.cpp:861-881 | an input for which it isn't: one idle for 11 s gives way, not one idle for 32 s |
| `RelayLoop.OldestIsLongestIdle` | packages/arduino/lib/NoPorts/src/noports_relay.cpp:834-852 | the same condition for the slot that is closed for want of heap, whatever its idle time |
| `RelayLoop.Relay.FindEvictable` | packages/arduino/lib/NoPorts/src/noports_relay.cpp:861-881 | the first of the evictable slots with the smallest stamp, or none when no slot is evictable |
| `RelayLoop.Relay.FindOldest` | packages/arduino/lib/NoPorts/src/noports_relay.cpp:839-852 | the first of the active slots with the smallest stamp, or none |
| `RelayLoop.Relay.RelieveHeap` | packages/arduino/lib/NoPorts/src/noports_relay.cpp:2237-2263 | when the heap is all but gone that slot is closed, an event of the runs above |
| `RelayLoop.Relay.CountActive` | packages/arduino/lib/NoPorts/src/noports_relay.cpp:921-925 | the number of active slots |
| `RelayLoop.Relay.FindFree` | packages/arduino/lib/NoPorts/src/noports_relay.cpp:966-970 | the first slot that isn't active, or none |
| `RelayLoop.Relay.Reclaim` | packages/arduino/lib/NoPorts/src/noports_relay.cpp:821-832 | exactly the active slots whose peer has closed are closed |
| `RelayLoop.Relay.HandleConnect` | packages/arduino/lib/NoPorts/src/noports_relay.cpp:904-1098 | the whole of a connect request is a step that the invariant is proved for |
| `RelayLoop.Relay.VisitAll` | packages/arduino/lib/NoPorts/src/noports_relay.cpp:1890-2169 | a round of visits is the pure round |
| `RelayLoop.ClientsFitBudget` | packages/arduino/lib/NoPorts/src/noports_relay.cpp:2426-2433 | the subs chosen for a number of clients keep all of them within the socket pool exactly when it has room for one sub each |
| `SideThread.Side.SendAll` | packages/c/srv/src/side.c:95-118 | all of a chunk is sent, however the sends split it, unless one fails or the thread is cancelled, and then a prefix of it is |
| `SideThread.Side.TransformChunk` | packages/c/srv/src/side.c:84-93 | the bytes to send are the stream transform of the chunk at its position, in the output buffer or, without a transformer, the input one |
| `SideThread.Side.Handle` | packages/c/srv/src/side.c:82-121 | a thread whose peer closes has sent the transform of all it received; one that fails or is cancelled in a send a prefix that reaches into the last chunk; one whose cipher fails exactly what came before that chunk |
| `SocketPair.TeardownIsSafe` | packages/c/srv/src/srv.c:461-628 | in every interleaving and on every failure path no thread is alive once a socket or the pipe is freed, none is joined twice, and at the end each started thread was joined once and each socket opened was closed once |
| `SocketPair.OnlyUnjoinedAreCancelledOrJoined` | packages/c/srv/src/srv.c:548-610 | only a started thread that hasn't been joined is cancelled or joined |
| `SocketPair.EveryActionMovesOn` | packages/c/srv/src/srv.c:461-628 | every action but a use of a socket brings the run nearer its end |
| `SocketPair.RunsAreShort` | packages/c/srv/src/srv.c:461-628 | a run has at most 20 actions that aren't uses of a socket, whatever fails and however the threads interleave |
| `SocketPair.NeverStuck` | packages/c/srv/src/srv.c:548-610 | until the function returns some action other than a use of a socket can happen, and without a failure, in every reachable state but one: the main thread reads the pipe and both threads have ended with no notice on it |
| `SocketPair.StuckOnceUnheard` | packages/c/srv/src/side.c:133-136 | in that state both notices were lost, and nothing can happen but a failure of the read |
| `SocketPair.BothLost` | packages/c/srv/src/side.c:133-136 | and there is a run that comes to it |
| `SocketPair.NextKeepsInv` | packages/c/srv/src/srv.c:461-628 | the invariant that ties program counter, threads, notices on the pipe and sockets is kept by every action of the main thread or of a relay thread |
| `SocketPair.ReportKeepsInv` | packages/c/srv/src/side.c:122-138 | a thread's notice, delivered or lost, keeps the invariant |
| `SessionCounter.CounterIsExact` | packages/c/srv/src/srv.c:61-80 | over every interleaving the counter is the number of sessions accepted and not yet ended, between 0 and the cap |
| `SessionCounter.TimesOutExactlyWhenQuiet` | packages/c/srv/src/srv.c:245-255 | the timeout check ends srv exactly when it has been up that long and no session was active at any moment of the last timeout seconds |
| `SessionCounter.NoTimeoutWhileBusy` | packages/c/srv/src/srv.c:348-435 | over whole runs, a srv that timed out had no session active in its last timeout seconds |
| `SessionCounter.TimedOutAtQuietCheck` | packages/c/srv/src/srv.c:245-255 | over whole runs a srv that has timed out did so at a check after a quiet window of that length, whatever failed or ended besides |
| `SessionCounter.EachLineIsHandledOnce` | packages/c/srv/src/srv.c:334-435 | over whole runs, until srv ends, each line received is looked at or skipped once, or is still to come |
| `SessionCounter.CapIsExact` | packages/c/srv/src/srv.c:350-362 | over whole runs a request is turned down exactly when 128 sessions are running |
| `SessionCounter.NextKeepsInv` | packages/c/srv/src/srv.c:245-435 | every action of the control loop or of a session's end keeps counter, idle time and history in agreement |
| `ControlLines.ScanFindsLines` | packages/c/srv/src/srv.c:727-755 | a scan of any stream finds exactly its non-empty newline-terminated lines, in order, and the unterminated tail |
| `ControlLines.ReceivedScans` | packages/c/srv/src/srv.c:288-332 | one receive does to accumulator and requests what scanning its bytes would |
| `ControlLines.AnyCutGivesTheLines` | packages/c/srv/src/srv.c:288-332 | however a NUL-free stream is cut into receives, the requests handed on are exactly its lines and the accumulator holds exactly the tail, as long as it never overflows |
| `ControlLines.ShortLinesFit` | packages/c/srv/src/srv.c:288-299 | it never does when lines are at most the accumulator's size less a receive's |
| `ControlLines.ReceivedFits` | packages/c/srv/src/srv.c:288-317 | what a receive leaves always fits the accumulator and has no newline |
| `ControlLines.OverflowDiscards` | packages/c/srv/src/srv.c:288-297 | a receive that doesn't fit with what was there does what it would if nothing had been |
| `ControlLines.TruncatedExactly` | packages/arduino/lib/NoPorts/src/noports_relay.cpp:1833-1875 | the ESP32 keeps a line of up to 383 bytes whole and just the first 383 of a longer one |
| `ControlLines.LineBuffer.Append` | packages/c/srv/src/srv.c:298-299 | the bytes received are added to the accumulator, nothing else changes |
| `ControlLines.LineBuffer.Stage` | packages/c/srv/src/srv.c:314-317 | the complete lines are moved out as a string and the tail to the front, in place |
| `ControlLines.LineBuffer.FindComplete` | packages/c/srv/src/srv.c:301-313 | where the last newline is |
| `ControlLines.LineBuffer.ProcessRequests` | packages/c/srv/src/srv.c:727-755 | the tokens of the string, cut at newlines, in order |
| `ControlLines.LineBuffer.Receive` | packages/c/srv/src/srv.c:288-332 | a receive, with its discarding of an accumulator that would overflow, is the pure one |
| `ControlLines.MessageBuffer.Take` | packages/arduino/lib/NoPorts/src/noports_relay.cpp:1833-1875 | one byte of the ESP32's reader: a line when it completes one that isn't empty, characters past the buffer dropped |
| `ControlLines.MessageBuffer.ReadAll` | packages/arduino/lib/NoPorts/src/noports_relay.cpp:1833-1875 | a stream read a byte at a time gives its lines, each cut to the buffer |
| `ControlLines.BothReadersAgree` | packages/arduino/lib/NoPorts/src/noports_relay.cpp:1833-1875 | for lines of at most 383 bytes the ESP32's reader gives the requests that the C srv hands on, whatever the cut into receives |
| `ConnectMessage.ParsersAgreeExactly` | packages/c/srv/src/srv.c:760-813 | of anything after the word connect the two daemons take the same exactly when it is the one for no encryption, or one non-empty part (refused by both), or a key or two in non-empty parts with nothing but blanks behind that don't start with the words for no encryption |
| `ConnectMessage.BothReadWhatIsSent` | packages/arduino/lib/NoPorts/src/noports_relay.cpp:997-1038 | a request for no encryption, one key or two is read by both daemons as just that |
| `ConnectMessage.TokensOfMessage` | packages/c/srv/src/srv.c:760-813 | of any message the C daemon's tokens are its parts between colons, the last one without trailing blanks and the empty ones left out |
| `ConnectMessage.FieldsOfMessage` | packages/arduino/lib/NoPorts/src/noports_relay.cpp:997-1027 | the ESP32's fields are the first four parts, empty ones too, the fourth running on to the end |
| `ConnectMessage.ParseControlMessage` | packages/c/srv/src/srv.c:760-813 | the loop of strtok_r calls gives the request its tokens stand for, or fails |
| `ConnectMessage.TrimMessage` | packages/c/srv/src/srv.c:772-785 | blanks and newlines off both ends, nothing else |
| `ConnectMessage.TrimmedExactly` | packages/c/srv/src/srv.c:772-785 | what comes off is spaces and newlines, all of those at both ends |
| `ClientSessions.EndedExactlyOnceIfWithdrawn` | packages/c/sshnpd/src/client_sessions.c:176-220 | over every run a tracked session is sent SIGTERM exactly once if a finished check of its key while it was tracked reported revoked or deleted, and never otherwise |
| `ClientSessions.TickLeavesOnlyCapped` | packages/c/sshnpd/src/client_sessions.c:122-168 | after a tick keys under check are distinct and within the global and the per-atSign cap, and a session still due and not ending is so only because a cap was reached, or a key before it or its own couldn't be copied for want of memory |
| `ClientSessions.ScanOk` | packages/c/sshnpd/src/client_sessions.c:140-168 | the same of the scan from any index on, which starts checks and clears flags as it goes and stops when a key can't be copied |
| `ClientSessions.TickKeepsOk` | packages/c/sshnpd/src/client_sessions.c:122-168 | a tick keeps the tables in order and changes nothing of a session but whether it is due |
| `ClientSessions.TrackKeepsOk` | packages/c/sshnpd/src/client_sessions.c:64-92 | a session is added only under an id that isn't in the table |
| `ClientSessions.TrackAddsOne` | packages/c/sshnpd/src/client_sessions.c:64-92 | a session is watched from then on exactly if its id was already or memory could be had, with its key and process, neither due nor ending |
| `ClientSessions.ReapKeepsOk` | packages/c/sshnpd/src/client_sessions.c:203-220 | reaping a session or a check keeps ids distinct and the caps |
| `ClientSessions.EndsEachOnce` | packages/c/sshnpd/src/client_sessions.c:176-201 | a withdrawn key ends exactly its sessions that aren't ending yet, each with one signal |
| `ClientSessions.RunOk` | packages/c/sshnpd/src/client_sessions.c:64-220 | the tables are in order after every run |
| `ClientSessions.ApplyTerms` | packages/c/sshnpd/src/client_sessions.c:176-220 | an event signals a session just when it reports its key for the first time |
| `ClientSessions.Sessions.Track` | packages/c/sshnpd/src/client_sessions.c:64-92 | the table after tracking, or the refusal of a session when memory is short or its id is there, is the pure one |
| `ClientSessions.Sessions.StartChecks` | packages/c/sshnpd/src/client_sessions.c:140-168 | the scan over the arrays starts the checks and clears the flags of the pure scan |
| `ClientSessions.Sessions.Tick` | packages/c/sshnpd/src/client_sessions.c:122-168 | a tick, overrun checks killed first, is the pure tick |
| `ClientSessions.Sessions.EndSessionsOf` | packages/c/sshnpd/src/client_sessions.c:176-201 | the signals and flags for a withdrawn key are the pure ones |
| `ClientSessions.Sessions.Reaped` | packages/c/sshnpd/src/client_sessions.c:203-220 | a reaped pid is a session's, a check's or nobody's, and the tables lose just that entry |
| `KeyChecks.TickKillsTheLate` | packages/c/sshnpd/src/client_sessions.c:126-130 | a tick sends SIGKILL once for each check that has taken more than 120 s, to its process, and nothing else |
| `KeyChecks.OnlyOverrunChecksAreKilled` | packages/c/sshnpd/src/client_sessions.c:126-130 | over every run SIGKILL goes only to a process that a tick more than 120 s before started as a check |
| `KeyChecks.AllKeysAreChecked` | packages/c/sshnpd/src/client_sessions.c:131-168 | over every run a tick that comes an interval after the last that found all keys due, or after the first, has the key of each session that isn't ending under check, unless a limit is reached, the check can't be started or memory is short |
| `KeyChecks.OnlyDueKeysAreChecked` | packages/c/sshnpd/src/client_sessions.c:131-168 | and at other ticks only keys of sessions still due are |
| `KeyChecks.EndsGoToTheirSessions` | packages/c/sshnpd/src/client_sessions.c:176-201 | over every run SIGTERM over a key goes to the process that a session with that very key was tracked with |
| `KeyChecks.LimitsHold` | packages/c/sshnpd/src/client_sessions.c:122-168 | in every reachable state at most four keys are under check, all different, no three of one atSign |
| `KeyChecks.AtSignIsTail` | packages/c/sshnpd/src/client_sessions.c:103-112 | a key's atSign is what it has from its last '@' on |
| `SrvStarts.PollClosesWhatItDrops` | packages/c/sshnpd/src/run_srv_process.c:186-249 | a pass closes exactly the pipes it drops from the table, once each |
| `SrvStarts.PollKeepsExactly` | packages/c/sshnpd/src/run_srv_process.c:235-249 | every unsettled entry in time is in the table still, as often as it was, and nothing else: no entry is skipped by the removal in place |
| `SrvStarts.PollStopsTheLateOnce` | packages/c/sshnpd/src/run_srv_process.c:235-249 | a watched process is stopped exactly when it has neither reported nor closed its pipe and has taken too long, no more often than it is watched |
| `SrvStarts.WatchedExactly` | packages/c/sshnpd/src/run_srv_process.c:191-205 | a start is in the table with its pipe and time if there is memory for it, otherwise just its pipe is closed |
| `SrvStarts.Starts.Forget` | packages/c/sshnpd/src/run_srv_process.c:186-189 | the pipe is closed and the last entry takes the place of the one removed |
| `SrvStarts.Starts.Watch` | packages/c/sshnpd/src/run_srv_process.c:191-205 | an entry more, or the pipe closed when there is no memory for it |
| `SrvStarts.Starts.Poll` | packages/c/sshnpd/src/run_srv_process.c:235-249 | the pass over the array that shrinks under it is the pure pass: entries, pipes closed and processes stopped |
| `SrvStarts.Starts.Reaped` | packages/c/sshnpd/src/run_srv_process.c:251-258 | the first entry of the pid is forgotten, if there is one |
| `ReadyPipe.FoundIffInSomeBlock` | packages/c/sshnpd/src/run_srv_process.c:207-233 | however a srv's output is cut into reads, its report is found exactly when it lies within one block of 47 bytes, counted from the start |
| `ReadyPipe.StraddlingIsMissed` | packages/c/sshnpd/src/run_srv_process.c:207-233 | a report that is there only across the ends of blocks is never found, whatever the cut |
| `ReadyPipe.LateReportIsMissed` | packages/c/sshnpd/src/run_srv_process.c:207-233 | such an output: 30 characters and then the report, in two reads |
| `ReadyPipe.EarlyReportIsFound` | packages/c/sshnpd/src/run_srv_process.c:207-233 | a report that ends within the first 47 bytes is found whatever the cut |
| `ReadyPipe.Watcher.Take` | packages/c/sshnpd/src/run_srv_process.c:219-231 | a read is added to the buffer, which is searched and started over when full, within its bounds |
| `ReadyPipe.Watcher.StrStr` | packages/c/sshnpd/src/run_srv_process.c:226-228 | whether the string in the buffer, up to its first NUL, holds the report |
| `DaemonChildren.OnlyUnreapedAreSignalled` | packages/c/sshnpd/src/daemon.c:77-84 | over every run each signal goes to a child that hasn't been reaped, given that the kernel doesn't reuse an unreaped pid |
| `DaemonChildren.EachPipeIsClosedOnce` | packages/c/sshnpd/src/daemon.c:113-116 | over every run each ready pipe is watched still or was closed once, and pids in the table are distinct |
| `DaemonChildren.StepOk` | packages/c/sshnpd/src/daemon.c:77-116 | each event keeps every table's pids distinct and alive, and sessions and checks apart |
| `DaemonChildren.TickOk` | packages/c/sshnpd/src/client_sessions.c:122-168 | of a tick: its signals go to checks that are running, and the checks it starts get new pids |
| `DaemonChildren.ReapOk` | packages/c/sshnpd/src/daemon.c:77-84 | of a reap: both tables forget the pid, and those signalled are others |
| `DaemonChildren.PollOk` | packages/c/sshnpd/src/run_srv_process.c:235-249 | of a poll: it signals only children that are watched |
| `DaemonChildren.ServeOk` | packages/c/sshnpd/src/handle_ssh_request.c:271-297 | of a request served: only the new child is signalled, while it is a child, and only when its session has an id that is watched already |
| `AtSign.NormalizedIsCanonical` | packages/c/sshnpd/src/authorization.c:12-54 | the canonical form has one '@', no capitals, dots or forbidden characters, fits the buffer with its terminator and is its own canonical form |
| `AtSign.FormExistsExactly` | packages/c/sshnpd/src/authorization.c:12-54 | there is a canonical form exactly when every character after a leading '@' is allowed and those that aren't dots fit the buffer, and are any |
| `AtSign.SameFormExactly` | packages/c/sshnpd/src/authorization.c:12-54 | two atSigns have the same canonical form exactly when they differ in case, dots and a leading '@' only |
| `AtSign.FormKeepsLetters` | packages/c/sshnpd/src/authorization.c:12-54 | the form has each character but the dots, in order, letters in lower case |
| `AtSign.Normalize` | packages/c/sshnpd/src/authorization.c:12-54 | the loop writes exactly the canonical form, within the buffer, or fails exactly when there is none |
| `AtSign.WriteKept` | packages/arduino/lib/NoPorts/src/noports_policy_limits.c:7-34 | the loop over the characters: what is kept, or the first that is forbidden or doesn't fit |
| `PolicyCache.CacheRefinesMap` | packages/c/sshnpd/src/policy_limits.c:80-117 | after any successful stores in time order the cache holds min(size, senders) senders, each with its latest decision, and none it dropped was stored later than one it holds |
| `PolicyCache.StoreRefines` | packages/c/sshnpd/src/policy_limits.c:80-117 | a store keeps that relation between the array and its history |
| `PolicyCache.StoredHoldsLatest` | packages/c/sshnpd/src/policy_limits.c:80-117 | every entry in use is its sender's latest decision, even when a copy fails |
| `PolicyCache.StoredDropsOldest` | packages/c/sshnpd/src/policy_limits.c:97-106 | the entry that gives way is the oldest |
| `PolicyCache.FoundExactly` | packages/c/sshnpd/src/policy_limits.c:62-78 | a sender that is held is found exactly while its latest decision is younger than the time to live, if it can be copied, and with that decision; no other is |
| `PolicyCache.StoredIsFound` | packages/c/sshnpd/src/policy_limits.c:62-117 | what has been stored is found until it is too old |
| `PolicyCache.Cache.Lookup` | packages/c/sshnpd/src/policy_limits.c:62-78 | the decision of the canonical sender if it is fresh and can be copied, otherwise nothing |
| `PolicyCache.Cache.FindSlot` | packages/c/sshnpd/src/policy_limits.c:88-106 | the sender's own entry, or else the first free, or else the first of the oldest |
| `PolicyCache.Cache.Store` | packages/c/sshnpd/src/policy_limits.c:80-117 | the array after a store, a failed copy leaving its entry free |
| `PolicyThrottle.SpacedUnlessCrowded` | packages/c/sshnpd/src/policy_limits.c:121-154 | over every run a sender is accepted twice for one kind within the interval only if as many others as there are slots were accepted from the first time on |
| `PolicyThrottle.RefusedOnlyTooSoon` | packages/c/sshnpd/src/policy_limits.c:121-154 | over every run a check is refused only if the sender was allowed one of that kind less than the interval before |
| `PolicyThrottle.RefusalsDontExtendTheWait` | packages/c/sshnpd/src/policy_limits.c:128-136 | refusals change neither the table nor when the next check is allowed |
| `PolicyThrottle.EvictionIsCrowded` | packages/c/sshnpd/src/policy_limits.c:137-150 | what is forgotten when the table is full is older than everything else in it |
| `PolicyThrottle.AllowedKeepsInv` | packages/c/sshnpd/src/policy_limits.c:121-154 | accepting a check keeps slots distinct, each with its sender's latest time |
| `PolicyThrottle.Throttle.Allow` | packages/c/sshnpd/src/policy_limits.c:121-154 | the verdict and the array afterwards are the pure ones |
| `PolicyThrottle.Throttle.FindSlot` | packages/c/sshnpd/src/policy_limits.c:137-150 | the first free slot or else the first of the oldest |
| `PolicyGate.AllowsOnlyLatestAuthorized` | packages/c/sshnpd/src/policy_limits.c:156-172 | over every run, even when copies fail, a request is allowed only with the decision of its canonical sender's latest answered check, which said authorized and was just made or stored less than the time to live before |
| `PolicyGate.HeldDecides` | packages/c/sshnpd/src/policy_limits.c:156-172 | over every run a decision that is held, fresh and copied decides a request at once, and nothing changes |
| `PolicyGate.OtherwiseAnswered` | packages/c/sshnpd/src/policy_limits.c:156-172 | otherwise the throttle drops it, or the answer decides and is then found; without an answer it is denied and nothing is stored |
| `PolicyGate.DroppedOnlyTooSoon` | packages/c/sshnpd/src/policy_limits.c:156-172 | over every run a request is dropped only if its sender was let through for that kind within the interval |
| `PolicyGate.ThrottleSawReached` | packages/c/sshnpd/src/policy_limits.c:156-172 | the throttle has seen exactly the requests that the cache didn't answer |
| `PolicyGate.RunHoldsLatest` | packages/c/sshnpd/src/policy_limits.c:156-172 | every cached decision is its sender's latest in every reachable state |
| `PolicyGate.ChecksInPast` | packages/c/sshnpd/src/policy_limits.c:156-172 | no check is recorded later than the request that made it |
| `PolicyGate.PolicyGate.Decide` | packages/c/sshnpd/src/policy_limits.c:156-172 | lookup, throttle, check and store, in that order, are the pure gate |
| `PolicyCooldown.SpacedUnlessCrowded` | packages/arduino/lib/NoPorts/src/noports_policy_limits.c:163-200 | over every run a sender is accepted twice for one kind within the cooldown only if as many other senders as there are slots were accepted from the first time on |
| `PolicyCooldown.RefusedOnlyTooSoon` | packages/arduino/lib/NoPorts/src/noports_policy_limits.c:163-200 | over every run a check is refused only if the sender was allowed one of that kind less than the cooldown before |
| `PolicyCooldown.EvictionIsCrowded` | packages/arduino/lib/NoPorts/src/noports_policy_limits.c:177-192 | the sender forgotten is the one active longest ago, counting both kinds |
| `PolicyCooldown.AllowedKeepsInv` | packages/arduino/lib/NoPorts/src/noports_policy_limits.c:163-200 | accepting a check keeps one slot a sender, each kind's time its latest |
| `PolicyCooldown.ActivityInHistory` | packages/arduino/lib/NoPorts/src/noports_policy_limits.c:157-161 | the later of a slot's two times is that of a check of its sender |
| `PolicyCooldown.Cooldown.Allow` | packages/arduino/lib/NoPorts/src/noports_policy_limits.c:163-200 | the verdict and the array afterwards are the pure ones |
| `PolicyCooldown.Cooldown.FindNewSlot` | packages/arduino/lib/NoPorts/src/noports_policy_limits.c:177-190 | the first free slot or else the first of those active longest ago |
| `PolicySlotRuns.RunKeepsInv` | packages/arduino/lib/NoPorts/src/noports_daemon.cpp:1436-1505 | over every run each envelope is in exactly one place, held by the slot, deleted once or handed on once, and a slot in use has the nonzero id drawn last |
| `PolicySlotRuns.HandedOnlyWhenGranted` | packages/arduino/lib/NoPorts/src/noports_daemon.cpp:1667-1806 | over every run an envelope is handed on only by an authorized reply from the policy service with the current id of the slot that holds it, or by a fresh cached decision, the latest under its sender's canonical name, that such a reply made about the name in the slot, which may be another sender's cut to 63 characters; and with just the rules of that reply |
| `PolicySlotRuns.NptIsNeverPreempted` | packages/arduino/lib/NoPorts/src/noports_daemon.cpp:1468-1482 | an NPT check in flight leaves the slot on a final reply, an overrun wait or a failed send, and on nothing else; pings and NPT requests leave the slot as it is |
| `PolicySlotRuns.WaitIsBounded` | packages/arduino/lib/NoPorts/src/noports_daemon.cpp:552-573 | over every run, at any time no more than d ms after the last tick, what is in the slot has waited at most 10 s and d since progress and 30 s and d in all |
| `PolicySlotRuns.IdsDiffer` | packages/arduino/lib/NoPorts/src/noports_daemon.cpp:68-75 | two request ids are the same exactly when whole cycles of 2^32 - 1 draws lie between them |
| `PolicySlotRuns.StaleRepliesAreIgnored` | packages/arduino/lib/NoPorts/src/noports_daemon.cpp:1696-1706 | a reply to any earlier request changes nothing unless 2^32 - 1 or more have been sent since |
| `PolicySlotRuns.SlotNamesTheSender` | packages/arduino/lib/NoPorts/src/noports_daemon.cpp:1483-1493 | the name kept in the slot, cut to 63 characters, is the sender's exactly when what is cut off is dots only: always for names of at most 63 |
| `PolicyAsked.RunKeepsAsker` | packages/arduino/lib/NoPorts/src/noports_daemon.cpp:1483-1493 | over every run, while a request is in flight the one last sent has its id and is about its sender or the name kept of it, and the slot's envelope is that sender's |
| `PolicyAsked.StepKeepsAsker` | packages/arduino/lib/NoPorts/src/noports_daemon.cpp:1603-1665 | each step keeps that, a re-send under a fresh id among them |
| `PolicyAsked.RecordedNamesTheSender` | packages/arduino/lib/NoPorts/src/noports_daemon.cpp:1772 | over every run a decision is cached under its sender's canonical name exactly when only dots were cut off, and under the name the policy service was asked about exactly then or after a re-send, which asks about the name cut |
| `PolicyAsked.HandedRestsOnReply` | packages/arduino/lib/NoPorts/src/noports_daemon.cpp:1436-1505 | over every run whose requests come from senders that nothing but dots is cut off, what is handed on rests on an authorized reply, with just its rules, to a request about the very envelope's sender, which comes now or came less than the time to live ago |
| `PolicyAsked.RestsExactlyWhenNamed` | packages/arduino/lib/NoPorts/src/noports_daemon.cpp:1616-1624 | of the requests of one sender alone that holds in every run exactly when only dots are cut off its name |
| `PolicyAsked.ResentRun` | packages/arduino/lib/NoPorts/src/noports_daemon.cpp:1616-1624 | a run in which it doesn't, for every other sender: the reply that counts is to a re-send, about the name cut |
| `PolicyAsked.CachedForAnother` | packages/arduino/lib/NoPorts/src/noports_daemon.cpp:1489-1491 | and a run in which what was authorized for such a sender is handed on to another, about whom the policy service was never asked |
| `PolicyAsked.CutToAnother` | packages/arduino/lib/NoPorts/src/noports_daemon.cpp:1489-1491 | a pair of such senders: @a with 61 dots and b, which is @ab, and @a |
| `PolicySlot.RulesAreNeverCut` | packages/arduino/lib/NoPorts/src/noports_daemon.cpp:1737-1757 | each rule kept from a reply is one of those sent, whole |
| `PolicySlot.RulesThatFitAreKept` | packages/arduino/lib/NoPorts/src/noports_daemon.cpp:1737-1757 | up to 16 rules that fit are all kept, in order |
| `PolicySlotRuns.AuthorizedChecksWereAnswered` | packages/arduino/lib/NoPorts/src/noports_daemon.cpp:1720-1772 | every authorized decision that was cached came from an authorized reply to the slot's request, and not from a timeout |
| `PolicyEffects.HeartbeatOnlyWhenGranted` | packages/arduino/lib/NoPorts/src/noports_daemon.cpp:1336-1371 | over every run a heartbeat is sent only for an authorized reply with the current nonzero id of the ping in the slot, or for a ping whose sender's latest decision is fresh and authorized |
| `PolicyEffects.RefusedOnlyWhenDenied` | packages/arduino/lib/NoPorts/src/noports_daemon.cpp:1774-1789 | over every run a refusal is sent only for a check that ended unauthorized or too late, to the sender of its envelope, or for a request whose sender's latest decision is fresh and a denial |
| `PolicyEffects.CachedDecides` | packages/arduino/lib/NoPorts/src/noports_daemon.cpp:1443-1466 | a request let through with a copied fresh cached decision does exactly what that says: heartbeat, hand on, or refuse and delete |
| `PolicyEffects.OtherwiseAsked` | packages/arduino/lib/NoPorts/src/noports_daemon.cpp:1468-1493 | without one exactly the policy service is asked, if the slot can be had and the message be sent; an envelope that can't is deleted |
| `PolicyEffects.AskedIsInSlot` | packages/arduino/lib/NoPorts/src/noports_daemon.cpp:1483-1491 | the slot then has that request, with a new id and its envelope |
| `PolicyEffects.OthersDoNothing` | packages/arduino/lib/NoPorts/src/noports_daemon.cpp:1397-1434 | a request held up or that doesn't parse does nothing, one that isn't valid loses its envelope, and the slot stays as it is |
| `PolicyEffects.ReplyDecides` | packages/arduino/lib/NoPorts/src/noports_daemon.cpp:1696-1806 | a reply that is taken and isn't an ack decides the request in the slot and empties it; any other does nothing |
| `PolicyEffects.TimeoutDecides` | packages/arduino/lib/NoPorts/src/noports_daemon.cpp:552-573 | a wait that is over refuses the request and deletes its envelope |
| `PolicyEffects.ResendDoes` | packages/arduino/lib/NoPorts/src/noports_daemon.cpp:1603-1665 | a message that can't be decrypted has the request sent again under a new id, or given up |
| `PolicyEffects.EndIsRecorded` | packages/arduino/lib/NoPorts/src/noports_daemon.cpp:1772 | what the end of a check leaves to be cached: the reply's decision, a denial when it says no or comes too late |
| `PolicyClient.Client.NextReqId` | packages/arduino/lib/NoPorts/src/noports_daemon.cpp:71-75 | the next id, 0 skipped on the wrap |
| `PolicyClient.Client.CleanupPending` | packages/arduino/lib/NoPorts/src/noports_daemon.cpp:1565-1571 | the slot's envelope is deleted, if it has one, and the slot is empty |
| `PolicyClient.Client.SendRequest` | packages/arduino/lib/NoPorts/src/noports_daemon.cpp:1627-1665 | a request that can't be sent empties the slot |
| `PolicyClient.Client.HandlePing` | packages/arduino/lib/NoPorts/src/noports_daemon.cpp:1336-1371 | a ping in policy mode: throttle, cache, and a free slot or nothing |
| `PolicyClient.Client.HandleNptRequest` | packages/arduino/lib/NoPorts/src/noports_daemon.cpp:1392-1495 | an NPT request in policy mode, from the throttle to the envelope's fate |
| `PolicyClient.Client.HandleEnvelope` | packages/arduino/lib/NoPorts/src/noports_daemon.cpp:1436-1495 | a verified envelope is handed on, refused, dropped or put in the slot, a ping giving way |
| `PolicyClient.Client.HandlePolicyResponse` | packages/arduino/lib/NoPorts/src/noports_daemon.cpp:1667-1806 | a reply: ignored, an ack, or the end of the check |
| `PolicyClient.Client.HandleDecryptFailure` | packages/arduino/lib/NoPorts/src/noports_daemon.cpp:1603-1625 | the request is sent again under a fresh id |
| `PolicyClient.Client.CheckTimeout` | packages/arduino/lib/NoPorts/src/noports_daemon.cpp:552-573 | an overrun wait is cached as a denial and ends the check |
| `PolicyWait.DecidedByFirstAnswer` | packages/c/sshnpd/src/policy.c:263-305 | the wait ends with a decision only by the first final answer from the policy service to its own request, read in a round that started before the deadline |
| `PolicyWait.AuthorizedOnlyBySuccess` | packages/c/sshnpd/src/policy.c:263-305 | a wait says authorized only by a notification from the policy service with the request's id in key and value that is a success and says so |
| `PolicyWait.FirstAnswerDecides` | packages/c/sshnpd/src/policy.c:263-305 | the first answer in time decides: a success by its decision, a refusal as a denial |
| `PolicyWait.NoRoundPastTheCap` | packages/c/sshnpd/src/policy_limits.c:174-178 | a wait is over by the first round that starts 30 s after the request, whatever was acknowledged |
| `PolicyWait.TwinStopsOnePast` | packages/arduino/lib/NoPorts/src/noports_policy_limits.c:202-204 | the ESP32's test is the same deadline, passed by one millisecond |
| `PolicyWait.AuthCheck` | packages/c/sshnpd/src/policy.c:263-310 | the loop comes to what the rounds amount to |
| `PermitOpen.ParsingInvertsPrinting` | packages/c/sshnpd/src/permitopen.c:7-134 | parsing a printed list gives the list back |
| `PermitOpen.ParsedIsMeaning` | packages/c/sshnpd/src/permitopen.c:7-134 | an argument without an empty entry before a non-empty one gives exactly its entries, or fails exactly when it is malformed |
| `PermitOpen.ParsedIsMeaningExactly` | packages/c/sshnpd/src/permitopen.c:7-134 | of every argument: it gives what it means exactly when it has no such gap, or means nothing and is refused, which with a gap is so exactly when an entry hasn't one colon or a token that is taken for a port is none |
| `PermitOpen.ParsedIsMeaningOnlyWithoutGap` | packages/c/sshnpd/src/permitopen.c:86-130 | of an argument that means something it gives that only without a gap |
| `PermitOpen.GapChangesMeaning` | packages/c/sshnpd/src/permitopen.c:86-130 | an input for which it gives something else |
| `PermitOpen.GapHidesBadPort` | packages/c/sshnpd/src/permitopen.c:86-130 | malformed inputs that are accepted: ,22: and then what is no port |
| `PermitOpen.CutIntoTokens` | packages/c/sshnpd/src/permitopen.c:52-61 | text whose separators are turned to terminators is the tokens of its entries, in a row |
| `PermitOpen.ShapeOfEntries` | packages/c/sshnpd/src/permitopen.c:29-50 | the one-pass check of colons and lengths is that every non-empty entry has one colon |
| `PermitOpen.UnquotedExactly` | packages/c/sshnpd/src/permitopen.c:14-20 | what comes off the argument is quotes of either kind, all of those at both ends |
| `PermitOpen.ColonsAreEntries` | packages/c/sshnpd/src/permitopen.c:52-61 | the colons counted are then the entries that aren't empty |
| `PermitOpen.EnoughTokens` | packages/c/sshnpd/src/permitopen.c:86-130 | so that the walk over the tokens never runs out of them |
| `PermitOpen.Trim` | packages/c/sshnpd/src/permitopen.c:14-20 | the ends of the text within the quotes |
| `PermitOpen.CheckShape` | packages/c/sshnpd/src/permitopen.c:29-50 | the loop decides exactly that |
| `PermitOpen.CutUp` | packages/c/sshnpd/src/permitopen.c:52-61 | the buffer between the ends with its separators turned to terminators, the rest untouched, and the number of colons |
| `PermitOpen.ReadPort` | packages/c/sshnpd/src/permitopen.c:92-125 | the port a string in the buffer stands for |
| `PermitOpen.ReadPair` | packages/c/sshnpd/src/permitopen.c:87-129 | the next host and port, and where the one after starts |
| `PermitOpen.Walk` | packages/c/sshnpd/src/permitopen.c:86-132 | all pairs are read, or the first bad port ends it, every access within the buffer |
| `PermitOpen.Parse` | packages/c/sshnpd/src/permitopen.c:7-134 | the whole parser, in place, for every input: it fails exactly when the pure parser does and otherwise its arrays are that list, the hosts in the buffer |
| `PermitMatch.ListAndPolicyAgree` | packages/c/sshnpd/src/policy.c:49-84 | the daemon's list and the same list sent as rules permit the same, for every request |
| `PermitMatch.ListAndEspAgree` | packages/arduino/lib/NoPorts/src/noports_daemon.cpp:1919-1948 | the ESP32 permits what the list does without hosts of 128 bytes or more, and so the same when there are none |
| `PermitMatch.EspIsStricter` | packages/arduino/lib/NoPorts/src/noports_daemon.cpp:1090-1096 | of any rules the ESP32 permits no more than the daemon, and less exactly for a host too long or a port that only strtoul accepts |
| `PermitMatch.OthersPermitNothing` | packages/c/sshnpd/src/permitopen.c:136-151 | a list permits a host and port exactly when some entry has that host or * and that port or 0 |
| `PermitMatch.EntryIsForItsOwn` | packages/c/sshnpd/src/permitopen.c:136-151 | one entry permits its own host and port, and * and 0 in their places any |
| `PermitMatch.RuleIsForItsOwn` | packages/c/sshnpd/src/policy.c:49-84 | a rule of a host and a port is for exactly that host, or any if it is *, and the port its text is read as, or any if it is *; to the ESP32, if the host fits |
| `PermitMatch.DecimalRuleIsForItsOwn` | packages/c/sshnpd/src/policy.c:49-84 | written in decimal, for just that port |
| `PermitMatch.PortZeroPermitsNothing` | packages/c/sshnpd/src/policy.c:66-75 | a rule whose port is 0, however written, permits nothing to either daemon |
| `PermitMatch.HostAndZeroPermitNothing` | packages/c/sshnpd/src/policy.c:66-75 | any host and :0 is such a rule |
| `PermitMatch.OnlyStarIsAnyPort` | packages/c/sshnpd/src/policy.c:61-64 | a rule permits all ports of a host exactly when its port is * and it is for the host; to the ESP32, if the host also fits |
| `PermitMatch.ShouldPermitOpen` | packages/c/sshnpd/src/permitopen.c:136-151 | whether some entry of the list is for the host and port, or for any |
| `PermitMatch.PolicyPermitsOpen` | packages/c/sshnpd/src/policy.c:49-84 | whether some rule, split at its last colon and with a sound port, is for the host and port |
| `PermitMatch.EspPermitsOpen` | packages/arduino/lib/NoPorts/src/noports_daemon.cpp:1919-1948 | the same of the ESP32's loop |
| `PermitMatch.EspRule` | packages/arduino/lib/NoPorts/src/noports_daemon.cpp:1919-1948 | one turn of that loop |
| `Text.ReadingsDiffer` | packages/c/sshnpd/src/policy.c:66-75 | strtol and strtoul give different ports exactly for negative numbers within 65535 of -2^64 |
| `Text.NegativeIsAPort` | packages/c/sshnpd/src/policy.c:66-75 | and those are taken for the ports 1 to 65535 by strtoul, -18446744073709551615 for 1 |
| `Text.PortOfDecimal` | packages/arduino/lib/NoPorts/src/noports_daemon.cpp:1090-1096 | a port written in decimal is read back by both |
| `Text.SpacedPort` | packages/c/sshnpd/src/policy.c:66-75 | white space before it, as the C library knows it, is skipped |
| `Escr.BuiltReadsBack` | packages/c/srv/src/escr.c:52-208 | the line that is built decodes to exactly the session id, challenge, side, key uri and signature that went in, and to the text that was signed |
| `Escr.LineReadsBack` | packages/c/srv/src/escr.c:52-208 | the same of the layers, whatever their lengths |
| `Escr.LayersGrow` | packages/c/srv/src/escr.c:57-72 | each layer is shorter than the next, so that the limit on the line bounds every buffer |
| `Escr.BuiltExactly` | packages/c/srv/src/escr.c:52-208 | a line comes of it exactly when the texts need no escape, the modulus is of 256 octets, a signature is made, the key decodes to 32 octets and the whole line is below 4096 characters |
| `Escr.SignificantIsRest` | packages/c/srv/src/escr.c:95-107 | what counts of a number is what is left without its leading zero octets |
| `Escr.PayloadIsJson` | packages/c/srv/src/escr.c:83-87 | the format's payload is compact JSON in its key order |
| `Escr.EnvelopeIsJson` | packages/c/srv/src/escr.c:119-124 | so is the envelope |
| `Escr.OuterIsJson` | packages/c/srv/src/escr.c:176-179 | and the outer object |
| `Escr.DecryptInverts` | packages/c/srv/src/escr.c:148-166 | encrypting the padded text again with the same iv gives it back |
| `Escr.UnpadInverts` | packages/c/srv/src/escr.c:139-146 | padding is taken off again by the length it holds |
| `Escr.JsonSafe` | packages/c/srv/src/escr.c:32-39 | exactly the strings that JSON takes as they are |
| `Escr.SignificantLength` | packages/c/srv/src/escr.c:95-107 | the octets of a number without its leading zeros |
| `Escr.FormatInto` | packages/c/srv/src/escr.c:83-87 | text that fits its buffer with a terminator, or nothing; no write outside |
| `Escr.EncodeInto` | packages/c/srv/src/escr.c:43-50 | base64 that fits its buffer with a terminator, or nothing; no write outside |
| `Escr.PadInto` | packages/c/srv/src/escr.c:139-146 | the padded text, within its buffer |
| `Escr.EncryptInto` | packages/c/srv/src/escr.c:148-166 | the ciphertext, within its buffers |
| `Escr.Wrap` | packages/c/srv/src/escr.c:139-183 | the encrypted layers; a buffer that is too small means a line over the limit |
| `Escr.BuildResponse` | packages/c/srv/src/escr.c:52-208 | a line comes of it exactly when the inputs are safe, the keys right, the signature made and the whole line within the limit, whatever the buffers between |
| `Base64.DecodeInverts` | packages/c/srv/src/escr.c:43-50 | decoding inverts encoding (RFC 4648, section 4) |
| `Base64.LettersAreInOrder` | packages/c/srv/src/escr.c:43-50 | the letters are those of table 1 of RFC 4648, in order |
| `Base64.GroupIsOneNumber` | packages/c/srv/src/escr.c:43-50 | three octets are one number of 24 bits in four letters, the highest digit first |
| `Base64.EncodeIsByThrees` | packages/c/srv/src/escr.c:43-50 | text goes by threes of octets, and one or two left over are padded with = |
| `Base64.EncodeIsPlain` | packages/c/srv/src/escr.c:43-50 | encoded text needs no escape and has no colon |
| `Json.ParseInvertsPrint` | packages/c/srv/src/escr.c:83-88 | parsing inverts printing of objects whose strings need no escape (RFC 8259, section 7) |
| `CivilDate.ClosedFormCounts` | packages/arduino/packages/NoPorts_CYD/src/main.cpp:426-435 | counting any number of days from 1970-01-01, either way, gives a date that the closed form takes to that number |
| `CivilDate.CountedBack` | packages/arduino/packages/NoPorts_CYD/src/main.cpp:426-435 | and every date of every year is come to by counting as many days as the closed form says |
| `CivilDate.EpochIsOrdered` | packages/arduino/packages/NoPorts_CYD/src/main.cpp:426-435 | it is strictly increasing in calendar order, and only so |
| `CivilDate.EpochIsPosix` | packages/arduino/packages/NoPorts_CYD/src/main.cpp:426-435 | from 1970 on it is the formula of POSIX.1-2017, section 4.16 of the Base Definitions |
| `CivilDate.NextIsOneMore` | packages/arduino/packages/NoPorts_CYD/src/main.cpp:426-435 | the next day is one more, over months, leap days, centuries and negative years |
| `NtpClock.AcceptedTimesNeverGoBack` | packages/arduino/packages/NoPorts_CYD/src/main.cpp:458-525 | over every run, restarts included, no accepted time is before an earlier accepted one, or a day before the build |
| `NtpClock.JumpsAreBounded` | packages/arduino/packages/NoPorts_CYD/src/main.cpp:503-511 | after a first good sync a time is accepted exactly when it is not before the floor and within the hour, in turns of a 32-bit long, or half a turn off |
| `NtpClock.FirstSyncIsAccepted` | packages/arduino/packages/NoPorts_CYD/src/main.cpp:490-525 | before a first good sync a time is accepted exactly from a day before the build and from the last one kept on |
| `NtpClock.SmallJumpsAreWithinTheHour` | packages/arduino/packages/NoPorts_CYD/src/main.cpp:503-511 | a change that a long holds is of an hour at most |
| `NtpClock.WholeTurnIsAccepted` | packages/arduino/packages/NoPorts_CYD/src/main.cpp:503-511 | an input for which the change is larger: a whole turn |
| `NtpClock.OnlyAcceptedTimesAreKept` | packages/arduino/packages/NoPorts_CYD/src/main.cpp:471-525 | over every run what is stored across restarts is the last time accepted and what is known of the session the last accepted in it, so that rejected times leave no trace |
| `NtpClock.StepRaisesFloor` | packages/arduino/packages/NoPorts_CYD/src/main.cpp:458-478 | the floor never falls, and comes to at least what is accepted |
| `NtpClock.Clock.TimeFloor` | packages/arduino/packages/NoPorts_CYD/src/main.cpp:458-468 | the floor of the fields |
| `NtpClock.Clock.PersistGood` | packages/arduino/packages/NoPorts_CYD/src/main.cpp:471-478 | what is stored only grows |
| `NtpClock.Clock.SyncTime` | packages/arduino/packages/NoPorts_CYD/src/main.cpp:480-525 | a sync is the pure step |

## Left out

- The relay's table of slots is an array of values of the slot's type, where `RelaySub.RelaySlot` changes its fields and buffers
  in place; that the two agree is proved for one slot, so aliasing between slots is not modelled.
- Bytes parked at an immediate close are dropped by the code, and nothing is claimed of them.
- The relay's global count of sockets, its heap thresholds and its totals: the code says the first drifts, the others
  carry no invariant.
- That every due key is checked in the end: the scan starts from index 0 each time, so the code does not provide it.
- `SrvStarts` takes which pipes have settled as given; `ReadyPipe` has one pipe's reads. Polling and interrupted calls
  are not modelled.
- Where strtok_r leaves its tokens in a message: `ConnectMessage` works on values, so its cutting in place is not modelled.
- Blanks before a connect message, which the C daemon drops and the ESP32 doesn't; messages of other kinds (heartbeats)
  and what is written to the log.
- Manager lists: only the policy mode of the ESP32's requests is modelled, and a notification always has a sender.
- The JSON of requests and replies outside the challenge response, the signatures on envelopes and key lookups: what they
  come to is a parameter of the event.
- Keys without an '@': the callers never track one, and in C looking for its '@' is undefined. The model takes all of it
  for its atSign.
- AES, RSA and SHA; the base64 and JSON libraries, for which the standards stand in.
- Reading and writing the exchange of the challenge response on a socket: a line reader and a send loop like those modelled.
- Failing writes of the display's store, and what it does when no network time comes: nothing changes then.
- Overflow of the date conversion's 32-bit intermediate results, for years within 400 of their range's ends.
- The single-session relay of the ESP32 and the single-session srv: one direction and one session of those modelled.
