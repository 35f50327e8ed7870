# Verification model of the mpfpv2 relay

mpfpv2 relays IP packets between clients over UDP. A client sends every packet on all its network interfaces at once; the
server drops the copies, checks the sender, and sends the packet on to every known address of the client that holds its
destination. This project models that in Dafny and proves what it promises.

`dafny verify dfyconfig.toml` checks the whole project.

## What is modelled

- **Deduplication** (`Words`, `Bits`, `Window`, `WindowTheorems`, `Dedup`, `DedupLocks`). The packed bitmap is updated in
  place by a class; its value is a ring of bits. The ring is proved to agree, on arbitrary 32-bit input, with an account that keeps the set
  of all numbers accepted since the last restart and their maximum, exactly when the window size divides 2^32 (the default,
  4096, does), and on runs that do not wrap around for every size. From there: unbounded numbers across any number of
  wraps, and what a restarted sender loses. `DedupLocks` splits a call at its two locks and interleaves it with resets.
- **The server's tables** (`ServerState`, `ServerLocks`, `ServerLockRoutes`, `ServerAtomic`, `ServerSchedules`,
  `ServerInvariants`, `ServerTheorems`, `ServerSessions`, `ServerAdmission`, `ServerLedger`, `ServerOutage`, `Server`). Each
  piece of code that runs under one lock is a function on the tables. `ServerLocks` interleaves these sections among any number of threads;
  `ServerAtomic` runs those of one handler back to back; `ServerSchedules` shows that the second is an instance of the first. Class `Server`
  updates the tables in place and is proved against the atomic handlers. What survives every interleaving (unique addresses,
  sound routes) is proved there. What does not (every live client is routed and pooled) is proved for atomic handlers, and
  at lock granularity the one kind of step that breaks it is characterised, with schedules that reach it.
- **Path health** (`PathHealth`, `PathHistory`, `MultiPath`). `PathHealth` is a timed state machine of one path in which a check decides
  first and acts later, with acknowledgements, failing writes, and removals that are themselves split, in between.
  `PathHistory` tells from the past of a path what it does next. `MultiPath` is the sender that does this for all paths.
- **Arithmetic and formats** (`Checksum`, `Messages`, `Wire`, `WireCodec`). The IPv4 header checksum, and the printers and
  parsers of headers, heartbeats and acknowledgements, on byte buffers.
- **Client and delivery** (`Client`, `Delivery`, `Relay`). What a client sends and writes, and the composition: clients,
  redundant copies, a network that loses, repeats and reorders, the server, the network again, the receiving clients.
  `Delivery` leaves open what the server decides about a packet; `Relay` has the server's tables decide.

Times are parameters, and come from one clock. Where a property needs them not to run backwards it says so. Sockets that
cannot be created or that refuse a write are parameters too.

Where the code does not do what one would expect of it:

- The window is exact only for sizes that divide 2^32 (`WindowTheorems.ExactIffDivides`); the constructor takes any size.
- A delete or cleanup can take away the route of a live client: of the removed one, if it registers again between the
  sections of its removal, or of any other one that takes its address in between, which is possible if the pool keeps
  another address for the removed client (`ServerSchedules.LiveWithoutRoute`,
  `ServerSchedules.LiveMarkedForExpiry`, `ServerSchedules.RequestOverridesPool`). Further heartbeats do not restore the
  route, as the client has a session (`ServerOutage.OutageLasts`).
- A path's close signal can be given twice, which closes a closed channel. `PathHealth.GivenTwiceIff` says exactly when:
  after a recycle whose socket could not be created, when the path is recycled again, removed or stopped; or while it is
  being closed. `PathHealth.NextGivesTwiceIff` is the test before an operation: the path it closes is not open. The
  operations of `MultiPath.Sender` ask that it is not met, for the paths they close and no others.
- A deduplicator can be made with a size for which its calls fail (`Dedup.EverySlotHasAWordIff`).
- The comment on the status values says that a path goes down after 5 missed heartbeats (client/transport.go:19). The code
  does not count them; it goes by time and by recycles, and so does the model.

## Model

| member | source | states |
|---|---|---|
| Words.SignedDiff | protocol/dedup.go:57-62 | The distance in int64 after the two corrections lies in [-2^31, 2^31] and, added to the maximum, gives the number back modulo 2^32 |
| Bits.UpdateEffect | protocol/dedup.go:108-109 | Setting or clearing bit k of a 64-bit word changes bit k and no other |
| Dedup.UnpackUpdate | protocol/dedup.go:108-109 | One word update of the packed bitmap is one update of the window it stands for |
| Dedup.ClientState.SetBit | protocol/dedup.go:108 | Sets the bit of the number modulo the window size and no other |
| Dedup.ClientState.ClearBit | protocol/dedup.go:109 | Clears the bit of the number modulo the window size and no other |
| Dedup.ClientState.GetBit | protocol/dedup.go:110 | Reads the bit of the number modulo the window size |
| Dedup.ClientState.ClearRange | protocol/dedup.go:71-73 | The clearing loop clears the slots of the numbers after the maximum up to the new one, with uint32 wrap-around |
| Dedup.ClientState.ClearAll | protocol/dedup.go:67-69 | The other clearing loop clears every bit |
| Dedup.ClientState.Check | protocol/dedup.go:50-99 | The locked part of a call, on the packed bitmap in place: new state and verdict are those of the ring step, in every branch |
| Dedup.Deduplicator.constructor | protocol/dedup.go:21-29 | A window size of 0 or less selects 4096, any other is truncated to 32 bits; no client is known; the deduplicator is usable iff the truncated size is neither 0 nor within 63 of 2^32 |
| Dedup.EverySlotHasAWordIff | protocol/dedup.go:41 | Exactly for these sizes the bitmap, whose length is computed in uint32, has a word for every slot |
| Dedup.Deduplicator.EnsureKnown | protocol/dedup.go:33-45 | A client not seen before gets an empty window; other windows stay |
| Dedup.Deduplicator.IsDuplicate | protocol/dedup.go:32-100 | Only the window of the packet's client changes, by the ring step, whose verdict is returned |
| Dedup.Deduplicator.Reset | protocol/dedup.go:102-106 | Exactly the client's window is forgotten |
| DedupLocks.EveryIncarnationIsARun | protocol/dedup.go:32-48 | In every interleaving of calls, split at their locks, and resets, each window that is ever made takes the numbers of its calls in the order in which they are checked, as a fresh window takes them one by one, even after it has been reset |
| DedupLocks.CallsCanBeChecked | protocol/dedup.go:47-48 | A call can always go on with the window it has found |
| DedupLocks.OneIncarnationUnlessReset | protocol/dedup.go:37-45 | Without a reset all calls of a client work on one window, whichever of them makes it |
| DedupLocks.ResetStartsOver | protocol/dedup.go:102-106 | After a reset a client's next call finds a fresh window |
| DedupLocks.IncarnationsAreExact | protocol/dedup.go:47-99 | Each such window is exact |
| Window.ClearAfterEffect | protocol/dedup.go:71-73 | Which slots the clearing loop clears: those of the skipped unbounded numbers, across the wrap at 2^32 |
| Window.StepAgrees | protocol/dedup.go:50-99 | On every 32-bit input and in every state, the ring gives the verdict of the account that keeps the set of all numbers accepted since the last restart and their maximum, and afterwards again holds that set on its window; for sizes that divide 2^32, and for any other unless the call carries the maximum across a multiple of 2^32 |
| Window.RunAgrees | protocol/dedup.go:32-100 | The same for the verdicts and the final state of every sequence of calls |
| Window.DivisorsWrapSafely | protocol/dedup.go:21-29 | For a size that divides 2^32 every sequence is of that kind |
| WindowTheorems.CollisionRun | protocol/dedup.go:108-110 | For a window size that does not divide 2^32 a two-call run on which a number never seen is called a duplicate |
| WindowTheorems.ExactIffDivides | protocol/dedup.go:21-29 | The ring is exact on all runs if and only if the window size divides 2^32 |
| WindowTheorems.UnboundedRefinement | protocol/dedup.go:32-100 | For unbounded numbers less than the window size behind and less than 2^31 ahead of the running maximum, a number fed modulo 2^32 is called a duplicate iff it occurred before, across any number of wraps |
| WindowTheorems.LossEnds | protocol/dedup.go:57-99 | From any state, how many packets of a new in-order stream can be lost at most, after which none is, for any window size and across wraps |
| WindowTheorems.BoundedLossAfterRestart | protocol/dedup.go:85-98 | A restarted sender loses at most a window of packets, its first ones |
| WindowTheorems.BoundIsTight | protocol/dedup.go:95-97 | For a size that divides 2^32, a sender that restarts after one window loses all of that window |
| ServerState.SubnetFits | server/server.go:662-671 | No address of a subnet overflows 32 bits, for any prefix length |
| ServerState.LowestFreeIsCorrect | server/server.go:661-682 | The scan returns the lowest free address strictly between network and broadcast address; it fails iff all are in use, in which case as many are in use as there are hosts |
| ServerState.AllocationIsFree | server/server.go:628-683 | Allocation keeps addresses unique, touches no session, and gives an address no other client claims |
| ServerInvariants.AllocationSucceeds | server/server.go:645-682 | Allocation for a client without a pool entry succeeds whenever pool, sessions and the server leave a host address |
| ServerAdmission.NewClientIsGiven | server/server.go:346-434 | A new client's session has the address it asked for if nobody else claims that, with the prefix it asked for; else the one in the pool for it, else the lowest of the subnet that is not taken, with the server's prefix; else none. With an address it is routed, is in the pool, under that address unless another was kept for it, and does not await expiry; nothing else of routes and pool changes |
| ServerAdmission.KnownClientKeepsTables | server/server.go:438-444 | A heartbeat of a client with a session changes neither routes nor pool nor windows |
| ServerAdmission.WrongKeyIsRefused | server/server.go:324-328 | A heartbeat with a wrong team key changes nothing and is answered with the bad-key status and address 0, whoever sends it |
| ServerAdmission.ClientZeroIsIgnored | server/server.go:330-334 | A heartbeat of client 0 with the right key changes nothing and is not answered |
| ServerAdmission.AdmittedIff | server/server.go:324-480 | The answer is positive iff the key is right and the client is not client 0; it names address and prefix of the client's session |
| ServerAdmission.OthersAreIgnored | server/server.go:277-314 | Packets too short, of another version or type, or with a heartbeat too short to be read, change nothing and are not answered |
| ServerAdmission.EverySessionIsTraced | server/server.go:324-480 | In every run of a server that starts without sessions, each client with a session has sent a heartbeat with the right key under an id other than 0, and one from each address of its session, which was last heard from, in an accepted packet, when the session says |
| ServerAdmission.RecipientsAreRecent | server/server.go:770-775 | In every such run, a packet handled right after a cleanup goes only to addresses from which an accepted packet came within the address timeout |
| ServerAdmission.DeleteIsComplete | server/web.go:373-401 | A delete finds the client iff it has a session; then nothing is left of it, and nothing else changes |
| Server.Server.MaxHosts | server/server.go:664-666 | The shift and subtraction in uint32 give 2^h - 1 for every number h of host bits, 32 included |
| Server.Server.ScanSubnet | server/server.go:669-682 | The scanning loop in uint32 finds the lowest free address and does not overflow |
| Server.Server.CollectUsed | server/server.go:650-659 | The addresses in use are those of the pool, of the sessions, and the server's |
| Server.Server.AllocateIp | server/server.go:628-683 | A pool entry is kept and its expiry cancelled, or the lowest free address is recorded, or nothing changes |
| ServerLocks.FireIsSafe | server/server.go:343-478 | Every critical section, in every interleaving of heartbeats, deletes, cleanups and data packets, keeps addresses unique: among sessions, in the pool, between the two, and against the server's own |
| ServerLocks.AllocateIsSafe | server/server.go:385-403 | The pool section of an allocation, run while other threads expire and forget pool entries, gives an address nobody else claims |
| ServerLockRoutes.FireIsSound | server/server.go:784-804 | Every section keeps this: a route leads to a client that holds the address, or whose removal is under way in some thread |
| ServerLockRoutes.EveryScheduleIsSafe | server/server.go:753-822 | Address uniqueness and route soundness in every state of every schedule |
| ServerLockRoutes.FreshServerIsSafe | server/server.go:97-143 | A server that has loaded a pool of distinct addresses, none 0 or its own, starts in such a state |
| ServerLockRoutes.RoutesStayCompleteIff | server/server.go:787-794 | A step makes a live client lose its route iff it is the route removal of an earlier delete or cleanup for the address that the client holds |
| ServerLockRoutes.PoolStaysCompleteIff | server/server.go:795-803 | A step makes a live client lose its pool entry, or marks it for expiry, iff it is the pool section of an earlier delete or cleanup of that client |
| ServerSchedules.HeartbeatIsASchedule | server/server.go:343-478 | The sections of a heartbeat run back to back, among other calls in progress, are the atomic heartbeat |
| ServerSchedules.DeleteIsASchedule | server/web.go:373-401 | The sections of a delete run back to back are the atomic delete |
| ServerSchedules.CleanupIsASchedule | server/server.go:768-821 | The sections of a cleanup run back to back, whatever order the map is visited in, are the atomic cleanup |
| ServerSchedules.LiveWithoutRoute | server/web.go:382-398 | From every quiet state in which a client may take the address of another, or of itself: a delete of the other that its heartbeat overtakes ends quiet, with the client live but without route, and without pool entry if it was the one deleted |
| ServerSchedules.RequestOverridesPool | server/server.go:351-378 | A client that comes back with a request for a free address holds that address while the pool keeps another one for it; so its address may be taken once its session is gone |
| ServerSchedules.LiveMarkedForExpiry | server/server.go:782-804 | The same for a cleanup that times out one client: the client that has taken the address is live and unrouted, and due to lose its pool entry if it is the one that timed out |
| ServerAtomic.AfterSweepAll | server/server.go:787-821 | Finishing the removals of a cleanup one at a time is finishing them all at once |
| ServerInvariants.HandleKeepsExact | server/server.go:317-481 | Every atomic handler keeps the tables exact |
| ServerInvariants.BeatKeepsExact | server/server.go:343-478 | A heartbeat, of a known or a new client, with or without a conflict or a failed allocation, keeps the tables exact |
| ServerInvariants.CleanKeepsExact | server/server.go:753-822 | So does a cleanup |
| ServerInvariants.KickKeepsExact | server/web.go:373-401 | So does a delete |
| ServerInvariants.EveryRunIsExact | server/server.go:753-822 | In every run of atomic handlers the routes are the inverse of the sessions' non-zero addresses, every such session is pooled, no session awaits expiry, only pool entries do, and addresses are unique |
| ServerInvariants.RouteIffHeld | server/server.go:415-421 | An address is routed to a client iff the client's session holds it |
| ServerTheorems.AddressStability | server/server.go:796-817 | After cleanup removes a client, through any run of others' events within 300 s its pool address stays its own and unavailable to others, and its next heartbeat for it or for 0.0.0.0 gets it back and cancels the expiry |
| ServerTheorems.PooledAddressStability | server/server.go:637-643 | The same without a limit of time for a pool entry that does not await expiry, as after the pool has been loaded |
| ServerTheorems.ReleasedIffRetentionOver | server/server.go:806-817 | Cleanup gives up the pool entry of a client without a session iff it awaits expiry and more than 300 s have passed |
| ServerTheorems.ReservedIsReturned | server/server.go:367-378 | A client without a session gets its reserved address back |
| ServerTheorems.RouteToIff | server/server.go:548-577 | A packet goes to a client, and to all its addresses, iff the client's session holds the destination and has an address |
| ServerTheorems.ForwardedIff | server/server.go:484-594 | A data packet is forwarded to a client iff it is new, IPv4, from its sender's registered address, not for the server, and for the address of that client, which has been heard from |
| ServerTheorems.ToTunIff | server/server.go:535-546 | A data packet goes to the server's TUN device iff it is new, IPv4, from its sender's registered address and for the server's address, and there is such a device |
| ServerLedger.FollowKeeps | server/server.go:484-492 | Every handler keeps each window in agreement with the record of its client's current epoch |
| ServerLedger.PassesOncePerEpoch | server/server.go:484-594 | In no run does a packet pass the server twice within one dedup epoch of its sender |
| ServerSessions.OneAddressPerNic | server/server.go:457-474 | In every run, no session has two addresses of one named NIC |
| ServerSessions.RemovedIffSilent | server/server.go:769-781 | Cleanup removes a session iff neither it nor any of its addresses was heard from in time |
| ServerSessions.KeptAddressesIff | server/server.go:770-775 | A session that survives a cleanup has afterwards exactly the addresses heard from within the address timeout, unchanged, and is otherwise as before |
| ServerSessions.BeatEffect | server/server.go:438-474 | After an accepted heartbeat the sender's session is as of now, has the latest device name given and its source among its addresses with the figures of its NIC; other addresses of that NIC are gone, the rest and all other sessions are as before |
| ServerSessions.DataEffect | server/server.go:487-531 | After an accepted data packet session and known source are as of now; a packet that is not accepted changes no session |
| ServerSessions.StaysRegistered | server/server.go:776-780 | A client whose heartbeats or data come within the client timeout keeps session, address and route in every run |
| ServerSessions.BeatMakesKnown | server/server.go:446-454 | An accepted heartbeat makes its source one of the session's addresses, as of now |
| ServerSessions.StaysReachable | server/server.go:562-577 | In every run, packets for a client go to each address from which its heartbeats or data come within the address timeout |
| ServerOutage.OutageLasts | server/server.go:438-444 | A live client whose route is missing stays unreachable in every run in which it keeps in touch, as heartbeats of a client with a session do not enter its route |
| ServerOutage.DeleteCanCutOff | server/web.go:382-390 | From every quiet state in which a client may take the address of another, or of itself, a schedule of one delete and one heartbeat brings it there |
| Server.SessionRecord.TouchAddr | server/server.go:446-474 | The source is recorded and brought up to date, and older addresses of the same NIC are dropped |
| Server.SessionRecord.DropStale | server/server.go:461-468 | Exactly the other addresses of the NIC are dropped |
| Server.SessionRecord.Prune | server/server.go:770-775 | Exactly the addresses not heard from in time are dropped |
| Server.SessionRecord.SawData | server/server.go:525-530 | Session and known address are brought up to date; no address is added |
| Server.Server.HasSessionConflict | server/server.go:352-366 | Whether the requested address is the server's or another session's |
| Server.Server.HasPoolConflict | server/server.go:367-378 | Whether it is kept in the pool for another client |
| Server.Server.ChooseIp | server/server.go:347-403 | The requested address if nobody else claims it, an allocated one, or none |
| Server.Server.EnterTables | server/server.go:415-434 | Route and pool entry of a new session, whose expiry is cancelled |
| Server.Server.Admit | server/server.go:345-444 | The session is refreshed or made, with its tables, as the atomic handler says |
| Server.Server.HandleHeartbeat | server/server.go:324-481 | State and answer of the atomic handler: wrong key, client 0, known and new client |
| Server.Server.ReceiveHeartbeat | server/server.go:317-322 | A payload that cannot be read is ignored |
| Server.Server.HandlePacket | server/server.go:277-314 | State and reply of the atomic handler for a UDP packet as bytes: unreadable and unknown packets are ignored |
| Server.Server.SourceIsRegistered | server/server.go:494-523 | The sender check of a data packet |
| Server.Server.HandleData | server/server.go:484-594 | State and outcome of the atomic handler: duplicates dropped first, then unknown or wrong senders, then routing |
| Server.Server.DeleteClient | server/web.go:373-401 | State and result of the atomic delete |
| Server.Server.Sweep | server/server.go:768-782 | The sessions section of a cleanup: sessions pruned and removed, the removed ones listed with their addresses |
| Server.Server.FinishRemovals | server/server.go:787-821 | The sections after it, in the order of the list |
| Server.Server.DropExpired | server/server.go:806-817 | Exactly the pool entries whose retention is over are dropped |
| Server.Server.Cleanup | server/server.go:753-822 | The whole cleanup is the atomic one |
| PathHealth.RunIsTimely | client/transport.go:333-371 | In every run from a path's creation, with recycles that fail and removals, a pending recycle was decided more than 10 s after the last one |
| PathHealth.RecyclesAreSpaced | client/transport.go:361-363 | In every run of a path from its creation, even if a check remembered its name from before, any two replacements of its socket are more than 10 s apart |
| PathHealth.RecycleBudget | client/transport.go:345-364 | In every ack-free part of every run, of T seconds, its socket is replaced at most 2 + T/60 times |
| PathHealth.FailureIsDetected | client/transport.go:333-371 | After any past, a path no longer acknowledged is down, or removed, at most 20 s + 3 check intervals after its last acknowledgement, plus the time the checks take to be carried out, whether or not sockets can be created |
| PathHealth.SilenceIsDetected | client/transport.go:459-466 | The same for a path never acknowledged, from its creation |
| PathHealth.ProbeBeforeData | client/transport.go:175-190 | In every run from a path's creation, no data packet is written to a socket before an acknowledgement on the path since that socket was made |
| PathHistory.CarriesDataIff | client/transport.go:184-196 | In every run from a path's creation, data goes out on it iff it is in the map and an acknowledgement came after the last of: creation, recycle, failed write, verdict of down carried out |
| PathHistory.CarriesBeatIff | client/transport.go:215-225 | In every run, heartbeats go out on it iff it is in the map and has not been taken down since it was last up |
| PathHistory.StateIsHistory | client/transport.go:296-306 | Last acknowledgement, last replacement of the socket, and number of replacements since are what the run says |
| PathHistory.DecisionIff | client/transport.go:345-364 | In every run, a check decides to recycle iff the path was silent for over 8 s with fewer than 2 recycles in that time and none in the last 10 s, or is down with 2 or more and none in the last 60 s; and on down iff silent for over 8 s with 2 or more |
| PathHistory.StaleIsReplaced | client/transport.go:351-370 | Such a silent path gets a new socket from the next check |
| PathHistory.HealthyIsLeftAlone | client/transport.go:352-354 | In every run in which each check comes at most 8 s after the last acknowledgement or the creation, the path is neither recycled nor taken down |
| PathHealth.OpenIff | client/transport.go:510-530 | After any run a path's close signal can still be given iff it was replaced after the last time it was given |
| PathHealth.GivenTwiceIff | client/transport.go:502-541 | A run, of any acknowledgements, writes, checks, failing recycles, removals and stops, gives a close signal twice, which closes a closed channel, iff the signal is given again after a recycle whose socket could not be created or after a removal or stop began |
| PathHealth.NextGivesTwiceIff | client/transport.go:510-511 | After any run without that, the next event does it iff it gives the signal of a path that is not open |
| PathHealth.RemovalAfterFailure | client/transport.go:483-492 | A run that does it: a recycle fails, then the path is removed |
| PathHealth.AckAfterFailure | client/transport.go:280-306 | Another: a recycle fails, a late acknowledgement revives the path, and it goes stale again |
| PathHealth.RecycleDuringRemoval | client/transport.go:491-496 | Another: no recycle fails, but one runs in the middle of a removal |
| PathHealth.ChecksTryAgainIff | client/transport.go:345-349 | Left alone by everything but checks, a path whose recycle failed is recycled again iff both attempts were used up |
| PathHealth.StaysDown | client/transport.go:345-349 | A path that is down with a recycle attempt left stays as it is in every such run |
| MultiPath.CheckIsTwoEvents | client/transport.go:333-371 | A check of the real operation is a decision and its execution in the timed model; it gives a signal twice iff the path is due for a recycle and not open |
| MultiPath.ChecksAreEvents | client/transport.go:333-371 | A check of all paths is that for each, and adds or removes none |
| MultiPath.CheckSparesHealthy | client/transport.go:352-354 | It leaves alone a path that is not down and was heard from in the last 8 s |
| MultiPath.AckedIsUsed | client/transport.go:305-306 | A path that has just been acknowledged carries data |
| MultiPath.RemovalIsThreeEvents | client/transport.go:483-496 | A removal is three events there; it gives a signal twice iff the path is not open |
| MultiPath.ClosedIffReplaced | client/transport.go:657-691 | A scan removes or replaces a path iff its interface is gone or has another first address of the server's family |
| MultiPath.OpenPathsStayOpen | client/transport.go:510-522 | If all paths are open every check and every scan is safe; after a scan they all are, after a check iff the sockets of the recycled paths could be created |
| MultiPath.SendIsEvents | client/transport.go:184-196 | Data goes out exactly on paths that may carry it in the timed model, and a failing write is an event of its path |
| MultiPath.ReconciledNames | client/transport.go:646-695 | If sockets can be created, the paths after a scan are those known and still there and the new ones with an address of the server's family |
| MultiPath.ReconciledIff | client/transport.go:646-695 | Whether or not sockets can be created: a path is there afterwards iff its interface is, and it keeps its address or gets a new socket |
| MultiPath.ReconciledPaths | client/transport.go:668-692 | Every path whose interface has such an address is bound to the first one; a path is new or entirely unchanged |
| MultiPath.ReconcileIsIdempotent | client/transport.go:646-695 | A second run on the same scan changes nothing |
| MultiPath.Sender.UpdateRtt | client/transport.go:280-307 | The path becomes active, heard from now, with its recycle count reset; other paths stay |
| MultiPath.Sender.Send | client/transport.go:175-206 | Written to exactly the active paths that accept it; failing ones become suspect; success iff some path took it |
| MultiPath.Sender.SendAllHeartbeat | client/transport.go:210-266 | Written to exactly the paths that are not down and accept it; failing ones become suspect |
| MultiPath.Sender.RecyclePath | client/transport.go:502-541 | New socket, probing, one more attempt; or down, with the close signal given |
| MultiPath.Sender.Inspect | client/transport.go:338-364 | One path's verdict, a failed path marked down |
| MultiPath.Sender.CheckAndRecycleStalePaths | client/transport.go:333-371 | The two passes carry out each path's verdict, and no other path changes, if no path due for a recycle has had its signal given |
| MultiPath.Sender.AddPath | client/transport.go:436-480 | A probing path bound to the first address of the server's family, or nothing |
| MultiPath.Sender.RemovePath | client/transport.go:483-499 | Exactly the named path goes, if its signal has not been given |
| MultiPath.Sender.DetectChanges | client/transport.go:646-695 | The three passes over a scan together reconcile the paths with it, if no path that the scan closes has had its signal given |
| Checksum.FoldIsRepresentative | client/client.go:561-563 | The fold loop gives the representative of the sum modulo 65535 |
| Checksum.DeferredCarries | client/client.go:557-563 | Adding first and folding at the end is one's complement addition word by word (section 2 of RFC 1071) |
| Checksum.ChecksumIsValid | client/client.go:550-567 | Afterwards the one's complement sum of the header words is 0xFFFF (section 3.1 of RFC 791), only bytes 10 and 11 have changed, and a second run changes nothing |
| Checksum.RecalcIPv4Checksum | client/client.go:550-567 | The loops in place, with a uint32 sum that does not overflow; a packet without a proper header is left alone |
| Wire.HeaderRoundTrip | protocol/protocol.go:49-68 | A header is read back as written, its type cut to four bits |
| Wire.HeaderDetermined | protocol/protocol.go:56-68 | What is read determines the bytes but byte 1; each error happens exactly when it should |
| Wire.HeaderLayout | protocol/protocol.go:37-54 | Version, type, reserved byte, client and number, most significant byte first |
| Wire.HeartbeatLayout | protocol/protocol.go:88-109 | Where address, prefix length, zero byte, reply port, key hash, device name and path figures are |
| Wire.PathLayout | client/transport.go:227-251 | Where separator, name length, name, round-trip time and byte counts are |
| Wire.AckLayout | protocol/protocol.go:166-176 | Where address, prefix length, status and MTU are |
| Messages.InnerPacketLayout | server/server.go:504-535 | Where version, source and destination of an inner packet are |
| Wire.HeartbeatRoundTripIff | protocol/protocol.go:88-156 | A heartbeat payload is read back as sent, figures cut to their widths, iff the device name has no zero byte and the NIC name has at most 255 bytes |
| Wire.HeartbeatDetermined | protocol/protocol.go:111-156 | Encoding whatever was read gives back the beginning of what it was read from, with byte 5 zero |
| Wire.PathPart | client/transport.go:227-251 | The appended figures are read back exactly if the name fits the length byte; otherwise the name comes back shorter |
| Wire.AckRoundTrip | protocol/protocol.go:166-188 | Acknowledgements are read back as written and determine their bytes |
| WireCodec.EncodeHeader | protocol/protocol.go:49-54 | Writes the 8 bytes at the start of the buffer and no others |
| WireCodec.EncodeHeartbeat | protocol/protocol.go:88-99 | Writes the 16 bytes of the fixed part at the offset and no others |
| WireCodec.EncodeHeartbeatFull | protocol/protocol.go:102-109 | Writes as much of the device name as fits after it and returns the number of bytes |
| WireCodec.AppendPath | client/transport.go:227-251 | Writes separator, length, name and figures with a moving offset, and no other bytes |
| WireCodec.BuildBase | client/client.go:339-350 | Header, fixed part and device name in one buffer, which is large enough for all of the name |
| WireCodec.AttachPath | client/transport.go:227-251 | A copy of that with the figures of a path at its end |
| WireCodec.EncodeHeartbeatAck | protocol/protocol.go:166-176 | Writes the 8 bytes of an acknowledgement at the offset and no others |
| WireCodec.ReadHeartbeat | protocol/protocol.go:111-156 | The scanning loop finds the separator; the decoder is computed |
| WireCodec.ReadPath | protocol/protocol.go:139-154 | The moving position reads the figures of a path, or finds that they do not fit |
| Client.OutgoingIsSound | client/client.go:265-270 | A rewritten packet carries the client's address and a valid checksum; nothing else of it has changed |
| Client.OutgoingIsAccepted | server/server.go:510-523 | The server accepts it as its sender's iff the sender's session holds the address |
| Client.BeatIsUnderstood | client/client.go:332-350 | The server reads a heartbeat packet as meant iff device and NIC name can be carried |
| Client.DataIsUnderstood | server/server.go:281-308 | The server treats a data packet's bytes as that data packet |
| Client.BeatIsHandled | server/server.go:317-481 | The server treats a heartbeat packet's bytes as that heartbeat, whatever its key |
| Client.RegistrationWorks | server/server.go:317-481 | From packet to packet: a heartbeat with the right key is answered, the answer can be read, the client then has a session with the address and prefix it names, and packets rewritten to that address are accepted |
| Client.Client.NextNumber | client/client.go:273 | Numbers are consecutive, with uint32 wrap-around |
| Client.Client.Readdress | client/client.go:265-270 | The source rewrite in place |
| Client.Client.FromTun | client/client.go:256-281 | One data packet and one number per IPv4 packet; anything else is left alone |
| Client.Client.BeatBase | client/client.go:321-350 | One heartbeat takes one number, from the same counter |
| Client.Client.BeatAll | client/transport.go:210-266 | The copies of one heartbeat all carry that number, and each the figures of its path |
| Client.Client.HandleHeartbeatAck | client/client.go:447-479 | A positive acknowledgement sets address, prefix and registration; any other changes nothing |
| Client.Client.HandleData | client/client.go:483-497 | A packet is written to the TUN device iff its sender's window has not seen it and there is a device |
| Delivery.HopDropsRepeats | protocol/dedup.go:32-100 | A hop drops exactly the numbers that have arrived at it, whatever is repeated or reordered by less than a window |
| Delivery.ClientsWriteOnce | client/client.go:483-497 | In every run over a network that loses, repeats and reorders, even if the server drops windows, the packets written by clients are exactly those put on their network of which a copy has arrived, but for those whose first copy found no TUN device; none is written twice by a client |
| Delivery.ExactlyOnce | server/server.go:484-594 | If the server drops no window, no packet is written twice anywhere, at one client or at two, or at a client and at the server |
| Delivery.FirstCopyPasses | client/client.go:483-497 | In every run, the first copy of a packet to reach the server, and the first to reach a client, is not dropped as a repeat |
| Relay.RunKeeps | server/server.go:484-594 | With the real tables and the clients' real windows: they agree with the abstract network after every run, and the tables stay exact |
| Relay.NewOnDownlink | server/server.go:510-558 | Whatever the server puts on the network was, by its tables at that moment, from its origin's registered address and for the client it goes to |
| Relay.EntersDownlinkIff | server/server.go:484-594 | A packet that reaches the server is put on the network for a client iff it is the first copy, from its origin's address, not for the server, and for the address of that client, which has been heard from |
| Relay.EntersServerTunIff | server/server.go:535-546 | It enters the server's TUN device iff it is the first copy, from its origin's address and for the server, and there is such a device |
| Relay.OwnPacketsAreSent | server/server.go:246-272 | A packet from the server's TUN device is put on the network for the client whose address it is for, which has been heard from, and for nobody else |
| Relay.IsWrittenIff | client/client.go:483-497 | A client writes a packet that reaches it iff it is the first copy and there is a TUN device |
| Relay.PacketsReachTheirAddressee | server/server.go:484-594 | In every run of the whole relay, with heartbeats, cleanups and deletes, each packet a client writes was originated as written, came from its origin's registered address and was addressed to that client when it was sent on, and no client writes one twice; each packet the server writes came from its origin's registered address and was addressed to the server |

## Left out

- Sockets, TUN devices, DNS, signals, the HTTP interface and its pages, configuration files and the pool file, logging, and SHA-256: input and output, or library calls. The hash of the team key is eight arbitrary bytes.
- The pool that a server loads is taken to hold distinct addresses, none of them 0.0.0.0 or the server's; the subnet is taken to be IPv4.
- A requested address is not compared with the subnet by the code; so only allocated addresses are shown to lie in it.
- Device names in the pool file, byte counters, the averaging of round-trip times, the count of missed heartbeats (never read), and the reuse of buffers: they decide nothing that is proved here. Buffers are fresh arrays.
- Which interfaces a scan reports: a scan is a parameter.
- Data races on single fields, such as the time a session was last seen under a read lock: sections are atomic.
- The choice between single-socket and multipath mode, the receiving loops, and the creation of the TUN device after registration.
- Dedup.Deduplicator.IsDuplicate: one call is one step here; `DedupLocks` says what becomes of calls that are split at their locks.
- Server.Server.constructor: takes the window size in force, after the default has been chosen.
- Server.Server.HandleData: a write that an address refuses is not distinguished from one that the network loses.
- ServerLocks.FireIsSafe: of a data packet, the sections that change tables are interleaved (dedup, sender bookkeeping); looking up the route changes nothing and is left to the atomic handlers.
- ServerInvariants.EveryRunIsExact: for atomic handlers, as it fails at lock granularity in the way `ServerLockRoutes.RoutesStayCompleteIff` and `ServerLockRoutes.PoolStaysCompleteIff` say.
- ServerTheorems.ForwardedIff: for atomic handlers, for the same reason.
- PathHealth.FailureIsDetected: the code carries a check out at once but not in no time; with the time it takes counted as 0 the bound is 20 s and three check intervals.
- MultiPath.Sender.UpdateRtt: the round-trip time and its last ten samples are not kept; they only show in diagnostics and in the figures of a heartbeat, which are arbitrary here.
- MultiPath.Sender.CheckAndRecycleStalePaths: one time stands for the moments at which the sockets of several paths are replaced.
- Delivery.ExactlyOnce: packets are delayed by less than a window, and 2^31 numbers are not skipped. A window that the server drops may let a packet pass to a second client; `Delivery.ClientsWriteOnce` does without this assumption.
- Relay.PacketsReachTheirAddressee: handlers are atomic, clients do not restart, and packets are delayed by less than a window.
