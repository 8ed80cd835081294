# Reach: a verified model

Reach lets operators log in to machines behind NAT. A target agent opens a reverse SSH tunnel to a hub, if
necessary through a WebSocket carrier; the hub allocates ports, keeps machine and tunnel rows in SQLite,
and hands an SSH configuration to the operators' own agent. This project models the parts of Reach that
hold protocol or state-machine logic and proves what they promise.

| file | subject |
|---|---|
| `ByteSeq.dfy`, `Frames.dfy` | WebSocket frames as written and read: the format byte by byte and bit by bit, round trip, prefixes, shortest form, streams of frames (sections 5.2 and 5.3 of RFC 6455) |
| `Carrier.dfy` | `readFrame`, `writeFrame` and `wsConn` as classes and loops; any sequence of `Read` calls |
| `SharedConn.dfy` | one connection, its write lock and any number of writers, in every interleaving; the concurrent callers of a `wsConn` |
| `Pump.dfy` | the two goroutines of `pump` on such a connection, up to what the peer reads |
| `Requests.dfy` | registration requests, statement by statement, with all handlers interleaved |
| `Slug.dfy` | both slug normalizers, `ValidateSlug`, slugs of retired machines |
| `Hub.dfy`, `HubInvariants.dfy`, `HubOrders.dfy`, `HubSteps.dfy`, `HubStore.dfy`, `HubWitnesses.dfy` | machine and tunnel tables: the steps, what every run keeps, the orders queued for the agents, how steps make up handlers, the methods that perform the steps, and runs that meet the exceptional conditions |
| `RateLimiter.dfy` | the fixed-window limiter in memory |
| `Agent.dfy`, `AgentDaemon.dfy`, `Backoff.dfy` | the target agent's daemon: its runs, its methods and main loop, its restart delay in 64-bit arithmetic |
| `Utf8.dfy` | cutting a title to a number of bytes |
| `Sse.dfy` | the event stream, written and parsed |
| `ShellQuote.dfy` | quoting for a POSIX shell |
| `AuthKeys.dfy` | the three editors of authorized_keys |
| `HostKeys.dfy` | pinned host key algorithms and the options that narrow them |
| `Strings.dfy`, `Options.dfy` | the functions of Go's `strings` and the option type that several models share |

The pattern is the same throughout. What a piece of code does is a function on values; the code itself, where
it updates things in place, is a method or a class whose `ensures` says that it computes that function; and the
promises are lemmas about the function, over all inputs, all runs or all interleavings. Whatever the code
cannot decide (the clock, random identifiers, probes, the network, the order of goroutines and handlers) is a
parameter or a step of a run. A step that is not enabled changes nothing, so that every sequence of steps is a run.

## Findings

Where the code falls short of what one would expect, the model follows the code, and the exact condition is proved:

- A frame of more than 16 MiB is written without complaint and refused by the reader (`RoundTrip` gives both directions).
- A poll that read a pending request can mark it expired after its machine was created; no other statement can
  (`OnlyAStalePollUndoesProvisioned`, `ProvisionedCanExpire`). A token is used at most once all the same.
- A poll hands out a new token without looking at whether its update matched. The token is stored exactly when the
  row is then approved and has none; one that is not stored is never accepted, and two polls at once are enough
  (`TokenIsStoredExactly`, `UnstoredTokenIsDead`, `TwoPollsOneToken`).
- A provision call that finds an unusable slug, or no admin user, after taking the token leaves its request spent.
  Of the calls that end without a machine exactly those can still be made good that gave the request back while it
  was still being provisioned (`OnlyAGivenBackRequestCanSucceed`, both endings reached by `CallsCanEndWithoutMachine`).
- `recomputeObserved` reads the desired state and writes the status in two statements, and `CreateMachine` writes it
  again, unasked, after the slow creation of the system account. With SetDesiredState as one step, the status goes
  wrong exactly when the machine is to be down at such a write, and for `recomputeObserved` was read in another
  desired state (`AgreementIsKeptExactlyByTimelyWrites`, reached by `AWriteCanBeLate` and `ACreationCanFinishLate`).
- A retirement for which every drawn slug is taken, or whose last UPDATE fails, has already retired the tunnels of a
  machine that stays disabled; and a creation that fails late marks the tunnel of a machine disabled meanwhile as
  failed. No other step undisables a tunnel (`OnlyFailuresUndisable`, reached by `ARetirementCanFail` and
  `ACreationCanFinishLate`).
- The migration of an older store stops half-way exactly when another tunnel of the hub already uses the name that a
  retired one is to get (`MigrationReleasesRetiredTunnels`).
- Retirement is not final: a machine that was retired and is enabled again can be listed in the SSH configuration.
  Its port is then negative, exactly because some step of the run retired it (`ListedEntries`,
  `PortIsLiveUntilRetired`, reached by `ARetiredMachineCanBeListed`).
- A name without an ASCII letter or digit becomes `box-`, which is no valid slug (`NormalizedIsValid`).
- The restart delay leaves its range exactly when the largest delay is 2^62 ns or more; then doubling wraps to a
  negative delay (`DelaysStayInRange`). That includes 2^62 itself.
- A `start_tunnel` command is acknowledged if a tunnel is held, even one that has ended without the main loop
  having seen it. After an acknowledged start a tunnel is alive exactly when the one held before, if any, had not ended
  (`AckMeansDone`, reached by `AStartCanBeAcknowledgedInVain`).
- The daemon's last heartbeat says "connected" if a tunnel was held, although it has just been cancelled
  (`ShutdownStopsEverything`).
- An event without a type arrives as `message`, and a carriage return at the end of a field is lost (`ReceivedUnchanged`).
- A key with a newline inside, which ValidateSSHPublicKey lets through if its first line is a key (security.go:164-171,
  called at db.go:452), leaves a line in authorized_keys that carries no marker. It counts as somebody else's: no later
  sync, disabling or removal takes it out (`BrokenKeyLeavesALine`, with two keys in one value in `TwoKeysInOneValue`).
  The unmarked lines of a file change exactly when some operation writes an entry with such a line
  (`ForeignLinesNeverChange`, `LeaksNothingExactly`).
- A leading `+`, `^` or `-` in an ssh option is dropped, so that a list to remove is read as a list to use (`OptionRoundTrip`).
- The limiter reads the time before it takes its lock, so a call can be earlier than a clean-up it comes after. It is
  then answered differently exactly when its bucket, full, was dropped and had not expired at its time
  (`CleanupShowsExactly`, by the key's own calls in `CleanupShowsByOwnCalls`, with an instance in `CleanupShowsWhenCallsOvertake`).

## Model

| member | source | states |
|---|---|---|
| Frames.RoundTrip | internal/wscarrier/wscarrier.go:336-419 | readFrame on writeFrame's output, whatever follows, gives back payload and opcode and consumes exactly the frame, if and only if the payload is at most 16 MiB and the mask bit is as expected; which error otherwise |
| Frames.RoundTripOpcode | internal/wscarrier/wscarrier.go:336-419 | for opcodes below 16 the frame comes back unchanged |
| Frames.StrictPrefixIsNoFrame | internal/wscarrier/wscarrier.go:373-419 | no strict prefix of a written frame decodes to a frame; for an acceptable frame the error is the truncation error |
| Frames.EncodeIsShortest | internal/wscarrier/wscarrier.go:343-353 | no bytes that decode to the same payload with the same masking are fewer than what writeFrame writes |
| Frames.DecodeIsStable | internal/wscarrier/wscarrier.go:373-419 | bytes that arrive later do not change a frame already decoded |
| Frames.BigEndianRoundTrip | internal/wscarrier/wscarrier.go:347-352 | the big-endian length field reads back as the length |
| Frames.MaskTwice | internal/wscarrier/wscarrier.go:413-417 | unmasking with the same key undoes masking |
| Frames.DecodeAllOfLog | internal/wscarrier/wscarrier.go:336-419 | from any written sequence of frames and an unfinished one, a reader recovers exactly the frames, in order, and stops at the unfinished one |
| Frames.DecodeAllPrefix | internal/wscarrier/wscarrier.go:373-419 | on any bytes at all, decoding stops at a suffix that starts no frame, and what it took decodes to the same frames on its own |
| Frames.DecodeIsLocal | internal/wscarrier/wscarrier.go:373-419 | a decoded frame depends on no byte behind it |
| Frames.DecodeIsExact | internal/wscarrier/wscarrier.go:373-419 | bytes decode to a frame if and only if they begin with it in the format of section 5.2 (opcode bits, one of three length forms, key exactly if the mask bit is set, each payload bit the exclusive or with its key bit), are masked if they have to be, and the payload is within the limit |
| Frames.EncodeIsFrame | internal/wscarrier/wscarrier.go:336-371 | what is written is such a frame and nothing else: final bit, the opcode's low four bits, the shortest length form with the most significant byte first, and a key exactly if asked |
| Frames.XorIsBitwise | internal/wscarrier/wscarrier.go:363 | the exclusive or of two bytes differs from the first exactly in the bits set in the second |
| Frames.DigitsAreTheNumber | internal/wscarrier/wscarrier.go:363 | bytes with the same eight bits are the same byte, so nothing else is an exclusive or |
| Frames.DataIsTextAndBinary | internal/wscarrier/wscarrier.go:71-76 | what counts as data are the payloads of text and binary frames, one after the other, and pings have opcode 9 |
| Carrier.WriteFrame | internal/wscarrier/wscarrier.go:336-371 | success puts exactly the bytes of one frame with this opcode and payload on the connection, as the format says byte by byte, failure is never silent |
| Carrier.ReadFrame | internal/wscarrier/wscarrier.go:373-419 | the stepwise reader returns the frame or error of the format specification and leaves exactly the bytes behind it; the bytes do begin with that frame |
| Carrier.MaskCopy | internal/wscarrier/wscarrier.go:361-364 | the masking loop changes exactly the payload bits that the key bit for their position says |
| Carrier.Unmask | internal/wscarrier/wscarrier.go:413-417 | so does the in-place loop |
| Carrier.ReadLength | internal/wscarrier/wscarrier.go:387-399 | the three length forms, and an error with nothing left if the field is cut short |
| Carrier.WsConn.Read | internal/wscarrier/wscarrier.go:61-87 | one Read returns the next bytes of the stream and keeps the rest in readBuf; data fills the caller's buffer or empties readBuf, and is not empty unless the buffer is; it touches no other byte of the buffer, and writes exactly one pong per ping it passed, same payload, same order; the loop ends because input shrinks |
| Carrier.OnePongPerPing | internal/wscarrier/wscarrier.go:61-87 | over any number of Reads, whatever others write in between, the frames they add to the connection are exactly one pong per ping consumed, same payloads, same order; with nothing in between, these are all the connection got |
| Carrier.WsConn.Write | internal/wscarrier/wscarrier.go:89-96 | one binary frame with these bytes, or an error |
| Carrier.WsConn.Close | internal/wscarrier/wscarrier.go:98-103 | one close frame if the connection still works |
| Carrier.ScanConsumes | internal/wscarrier/wscarrier.go:65-86 | the data a scan hands over is all the data in the frames it consumed; it ends with a close only at a close frame and with an error only where no frame decodes |
| Carrier.ReadsConserve | internal/wscarrier/wscarrier.go:61-87 | for any input and any buffer sizes, bytes returned plus readBuf are the concatenation of the data payloads of the frames consumed |
| Carrier.ReadsAreExact | internal/wscarrier/wscarrier.go:61-87 | for any input and any buffer sizes, what Reads have returned is a prefix of the data before the first close, or the first bytes that are no frame, and all of it when they report an end, which is the end of the stream exactly if there is a close |
| Carrier.EnoughReadsEnd | internal/wscarrier/wscarrier.go:61-87 | with buffers that are not empty, one Read more than there are such bytes is enough to get all of them and the end |
| Carrier.ReadWhatWasWritten | internal/wscarrier/wscarrier.go:61-96 | reading what writeFrame wrote yields a prefix of the data: all of it when an error is reported, all before the close frame when the end of the stream is |
| Carrier.EnoughReadsGetAll | internal/wscarrier/wscarrier.go:61-96 | so a reader of what writeFrame wrote gets all data up to the first close |
| SharedConn.StepKeepsConn | internal/wscarrier/wscarrier.go:336-371 | every step of any writer keeps the bytes whole frames plus at most one unfinished frame of the lock holder |
| SharedConn.StepBegins | internal/wscarrier/wscarrier.go:284-297 | a step adds to what a writer has begun exactly the frame it takes the lock for |
| SharedConn.ConnDecodes | internal/wscarrier/wscarrier.go:336-419 | a peer that decodes the connection finds exactly the logged frames and stops at the unfinished one |
| SharedConn.CallersNeverTear | internal/wscarrier/wscarrier.go:79-103 | any number of goroutines in Read, Write and Close of one wsConn, in any interleaving: frames stay whole, each caller's frames keep its order, and a caller whose calls have returned has all of them on the connection |
| SharedConn.CallersCanReturn | internal/wscarrier/wscarrier.go:79-103 | no caller gets stuck: before a failure some continuation without further calls lets all of them return with every frame asked for on the connection |
| SharedConn.FailureLeavesAPrefix | internal/wscarrier/wscarrier.go:366-370 | a write that fails after n bytes leaves the whole frames and exactly that much more of the unfinished one |
| Pump.ExecInv | internal/wscarrier/wscarrier.go:276-334 | every interleaving of forwarder, answerer and lock keeps the invariant on bytes, queues, histories and the close frame while no write fails |
| Pump.FramingIsNeverTorn | internal/wscarrier/wscarrier.go:276-371 | the connection holds whole frames and at most one unfinished frame of the lock holder; each writer's frames keep their order; data is a prefix of plainIn; pongs answer the pings read, in order; plainOut gets exactly the data read |
| Pump.AnswererDelivers | internal/wscarrier/wscarrier.go:304-327 | in every interleaving, plainOut has got a prefix of the data that the peer sent before its first close, or the first bytes that are no frame; a finished answerer has delivered exactly that data and put exactly one pong per ping before that point on the connection |
| Pump.EverythingCanBeDelivered | internal/wscarrier/wscarrier.go:276-334 | no state before a failed write is stuck: some continuation finishes both goroutines, with all of plainIn on the connection and everything delivered that the peer sent |
| Pump.PeerReadsAPrefix | internal/wscarrier/wscarrier.go:276-334 | end to end, a peer that reads with any buffer sizes gets a prefix of plainIn; when it sees the end of the stream it has everything that was read from plainIn, and so it has when it reads to the end of the connection while the forwarder is idle |
| Pump.PeerReadsEverything | internal/wscarrier/wscarrier.go:276-334 | once the forwarder is done and idle, a peer whose buffers are not empty gets everything read from plainIn and then the end of the stream, with at most one Read more than there are bytes |
| Pump.CloseComesLast | internal/wscarrier/wscarrier.go:292-298 | once a close frame is on the connection, everything the forwarder decided to write is |
| Requests.Table.Approve | api.go:902-911 | approves exactly a pending request and clears its token; nothing else changes |
| Requests.Table.Deny | api.go:916-925 | denies exactly a pending request; nothing else changes |
| Requests.Table.Poll | api.go:335-366 | for a poll that is not interrupted by another handler: the status it reports and the whole row it leaves, when it expires the request, when it issues a token, and that the new token is then accepted |
| Requests.PollInSteps | api.go:322-366 | the statements of a poll, run in a row, leave the row that the whole poll leaves and generate a token exactly when it does |
| Requests.Table.Consume | api.go:474-501 | succeeds exactly for an approved request with this unexpired token, which is then gone while the request is being provisioned |
| Requests.Table.Provision | api.go:399-422 | the four outcomes of a provision call and the status each leaves |
| Requests.RefusalInSteps | api.go:399-415 | the statements of consumeSetupToken in a row take the token exactly when the whole call does, and else change nothing |
| Requests.ProvisionInSteps | api.go:416-422 | so do the statements after it: a failed CreateMachine gives the request back, a successful one finishes it |
| Requests.Table.ExpireOnce | provisioner.go:974-981 | expires exactly the pending and approved requests past their time and the approved ones whose token is past its time |
| Requests.NextInv | api.go:335-361 | every single statement of every handler keeps the request invariant |
| Requests.ExecInv | api.go:399-422 | every interleaving keeps it |
| Requests.AtMostOneMachine | api.go:474-501 | at most one provision in flight, at most one successful CreateMachine; a pending or approved request has neither |
| Requests.TokensAreSingleUse | api.go:492-499 | a token that was consumed once never matches again, even for a call that had read it before |
| Requests.AUsedTokenIsDead | api.go:492-499 | once the compare-and-swap has matched a token, no continuation accepts or matches it again |
| Requests.OnlyAStalePollUndoesProvisioned | api.go:335-337 | a provisioned request loses that status exactly by a poll's expiry update based on an earlier read |
| Requests.ProvisionedCanExpire | api.go:335-337 | such a run exists |
| Requests.TokenIsStoredExactly | api.go:352-361 | in any interleaving a token that a poll hands out is stored exactly when the row is then approved and without a token |
| Requests.UnstoredTokenIsDead | api.go:474-501 | a token handed out that is not in the row is never accepted in any continuation |
| Requests.TwoPollsOneToken | api.go:352-361 | a run in which a poll hands out a token that is not stored |
| Requests.FullProvision | api.go:399-422 | from any good state a call whose token is still in the row can take its request through to exactly one machine, by a run that continues that state |
| Requests.AbortedIsSpent | api.go:404-415 | a request whose call stopped after taking the token never leads to a machine |
| Requests.OnlyAGivenBackRequestCanSucceed | api.go:404-419 | when a call ends without a machine, some continuation leads to a machine if and only if the call gave the request back and it was still being provisioned |
| Requests.CanSucceedExactly | api.go:335-501 | some continuation leads to a machine, or one exists, if and only if one exists, the request is pending or approved, or a provision call has taken the token and not failed, or failed and can still give it back |
| Requests.DenialIsFinal | api.go:915-925 | after a denial no continuation leads a pending request to a machine, and it stays denied or expired; other requests lose nothing by it |
| Requests.SweepsAreFinal | provisioner.go:974-981 | each sweep takes the last chance of a machine away from exactly the requests it is for |
| Requests.CallsCanEndWithoutMachine | api.go:404-419 | both endings are reachable, and the one that gives back with a request that can still succeed |
| Requests.ClosedStaysClosed | api.go:474-501 | with no provision in flight, a request that is neither pending nor approved gets no further machine |
| Requests.NoMachineWithoutApproval | api.go:902-911 | a pending request leads to no machine in any run without an approval |
| Slug.NormalizeSlugLoop | security.go:138-162 | the one-pass loop computes the specified slug |
| Slug.CollapseLoop | security.go:140-153 | the loop with its flag writes the specified characters |
| Slug.OnePassReplacesRuns | cmd/reach-agent/install.go:1737-1741 | collapsing with a flag equals replacing longest runs |
| Slug.AgentAgrees | cmd/reach-agent/install.go:1739-1753 | the agent's normalizeSlug and the server's agree on every name |
| Slug.NormalizedIsValid | security.go:107-162 | the result is a valid slug if and only if the folded name has an ASCII letter or digit, and then has no double hyphen; otherwise it is "box-" |
| Slug.SlugsAre | security.go:107-112 | a valid slug is 3 to 32 letters, digits and hyphens, with no hyphen at either end |
| Slug.NormalizeIsIdempotent | security.go:138-162 | a valid result is a fixed point |
| Slug.RetiredCandidateIsValid | provisioner.go:447-464 | every candidate for a retired slug is valid, so the check after it never skips one |
| Slug.RetiredCandidateIs | provisioner.go:447-461 | a candidate is the normalized name, cut to fourteen characters and without a hyphen at the cut, the suffix and the drawn id |
| Hub.LeastUsable | provisioner.go:192-198 | the least usable port of the range, none only if there is none |
| Hub.NextRetiredPort | provisioner.go:490-500 | a negative port below every negative port of the hub |
| Hub.PickRetiredSlug | provisioner.go:456-474 | a drawn candidate that no other machine has, none only if every drawn one is taken |
| HubStore.Store.AllocatePort | provisioner.go:175-199 | the port scan returns the least usable port, fails only when no port is usable, and never gives out one that is reserved, listened on or held by a tunnel that is not retired |
| HubStore.Store.CreateMachine | provisioner.go:105-151 | the machine and the tunnel row after a success and after a failed system account, column by column, and no change after any other failure; the invariant and everything that lasts are kept |
| HubStore.Store.InsertRows | provisioner.go:105-133 | the two rows inserted, column by column, with a slug, a port and a user that no other row has; and the failures, which leave no row behind |
| HubStore.Store.FinishCreate | provisioner.go:135-144 | the last UPDATEs, of whatever the rows have become, and no other row or column; the invariant and everything that lasts are kept |
| HubStore.Store.NextRetired | provisioner.go:490-500 | below every negative port of the hub, and one below some port or -1 |
| HubStore.Store.RetireTunnelRow | provisioner.go:477-509 | the row of a retirement column by column: status, user, port, originals; a refused update changes nothing |
| HubStore.Store.RetiredSlug | provisioner.go:447-475 | the retry loop finds the first free candidate |
| HubStore.Store.SetDesiredState | provisioner.go:281-346 | the whole new machine row and tunnel rows of each desired state, and the commands queued, in order and with the new generation; the invariant and everything that lasts are kept |
| HubStore.Store.Retire | provisioner.go:318-341 | tunnels first, then the slug, which is a drawn candidate that no other machine has, then the machine; nothing more if no slug is found or the last UPDATE fails |
| HubStore.Store.RecomputeObserved | provisioner.go:857-890 | afterwards the status agrees with the desired state whatever it was before; online, degraded, gone and unknown each have their exact condition on heartbeat, tunnel, sshd and probe, and offline is the rest; nothing else in the row changes; invariants are kept |
| HubInvariants.WriteAgrees | provisioner.go:885-889 | the write keeps agreement exactly when the machine is to be active or still in the state read |
| HubStore.Store.ProbeTunnel | provisioner.go:833-846 | a probe sets the status of its own tunnel unless that is disabled, retired or failed, and changes nothing else; it keeps the tunnels of disabled machines disabled and all invariants |
| HubStore.Store.HeartbeatTunnels | api.go:573-575 | a heartbeat brings exactly its machine's tunnels that are not disabled, retired or failed online, and keeps the tunnels of disabled machines disabled and all invariants |
| HubStore.Store.ReleaseRetiredTunnels | db.go:349-401 | the migration loop, row by row, stopping at a refused update; the invariant is kept where it held |
| HubInvariants.AllocatedPortIsFree | provisioner.go:175-199 | the port chosen is positive and no row of the hub has it, although the query sees only part of the rows |
| HubInvariants.FirstGrantablePort | provisioner.go:159-199 | the port given out is the first of the range that is not reserved, that nothing listens on, and that no tunnel of the hub has, unless it is retired |
| HubInvariants.CreateAddsTwoRows | provisioner.go:105-133 | a creation whose transaction goes through adds one machine and one tunnel with the least usable port and originals equal to the live values |
| HubInvariants.RetireRowWorks | provisioner.go:477-509 | retiring a row is never refused, gives it a negative port and a retired user, and keeps released ports and originals |
| HubInvariants.RetireRowsWorks | provisioner.go:319-328 | the same for all rows of a machine; no other row changes |
| HubInvariants.SetDesiredInv | provisioner.go:281-346 | every state change keeps all invariants |
| HubInvariants.EveryRunKeepsInv | provisioner.go:159-509 | in every run: ports and users distinct per hub, live ports in range and unreserved, retired ports negative, slugs valid and distinct, no command ahead of its machine's generation even if queued from an earlier read, tunnels of a machine that is to be down are down |
| HubInvariants.EveryRunFollows | provisioner.go:477-509 | over any continuation originals keep their creation values, a released port never changes again, generations never fall and rise with every change of desired state |
| HubInvariants.ChangeRaisesGeneration | provisioner.go:281-346 | a successful change raises the generation by one and queues only commands of that generation |
| HubOrders.TheLastOrderFits | provisioner.go:281-317 | in every run the last order queued for a machine is stop if it is to be disabled, uninstall if it is retiring, and start, or there is none yet, if it is to be active |
| HubOrders.ChangeQueues | provisioner.go:297-317 | a change queues exactly sync_keys and start_tunnel, stop_tunnel and sync_keys, or uninstall, of the new generation |
| HubSteps.CreateInSteps | provisioner.go:105-151 | the two steps of a creation, run in a row, are the whole CreateMachine |
| HubSteps.RecomputeInSteps | provisioner.go:857-890 | so are those of recomputeObserved: the status follows the desired state of that moment |
| HubSteps.UpdateInSteps | updates.go:82-102 | and those of queueAgentUpdate: one command, of the machine's generation |
| HubSteps.HeartbeatStep | api.go:573-575 | what a heartbeat does in a run, tunnel by tunnel |
| HubSteps.ProbeStep | provisioner.go:833-846 | what a probe does in a run, tunnel by tunnel |
| HubSteps.TitleRaisesGeneration | provisioner.go:365-390 | a new process title raises the machine's generation by one and changes nothing else |
| HubInvariants.RetirementReleases | provisioner.go:318-337 | a retirement gives back the live ports and the slug |
| HubInvariants.PortIsLiveUntilRetired | provisioner.go:477-509 | over any run a tunnel has a live port exactly when it had one at the start, or was created since, and no step of the run retired its machine |
| HubInvariants.ObservationsLeaveDownTunnels | provisioner.go:815-890 | no sequence of heartbeats, probes and recomputations brings a down tunnel back |
| HubInvariants.OnlyFailuresUndisable | provisioner.go:274-341 | a step keeps the tunnels of a disabled or retiring machine disabled if and only if it is neither a retirement of that machine, which has tunnels, with every drawn slug taken or a failing last UPDATE, nor the end of its creation without a system account |
| HubInvariants.DisabledStaysDown | provisioner.go:299-317 | in every run without either the tunnels of a disabled or retiring machine are all disabled |
| HubWitnesses.ARetirementCanFail | provisioner.go:331-341 | a retirement with a free slug and a failing last UPDATE is reachable, and leaves the machine disabled with a retired tunnel |
| HubWitnesses.ACreationCanFinishLate | provisioner.go:135-141 | a run in which a machine is disabled while its account is made: either end of the creation overwrites the status, and the failing one the disabled tunnel |
| HubInvariants.AgreementIsKeptExactlyByTimelyWrites | provisioner.go:857-890 | a step keeps the status in agreement with the desired state if and only if it is not a late write, of recomputeObserved or of CreateMachine |
| HubInvariants.StatusAgreesInTimelyRuns | provisioner.go:281-346 | in every run without late writes a machine that is not to be active shows its desired state |
| HubWitnesses.AWriteCanBeLate | provisioner.go:857-890 | a late write is reachable, and breaks the agreement |
| HubInvariants.ListedEntries | api.go:1083-1099 | in every run the SSH configuration lists only desired-active machines under valid, distinct slugs; a listed port is live, in range and unreserved, exactly when no step of the run retired the machine, and negative otherwise |
| HubSteps.WhoIsListed | api.go:1083-1099 | in every run a machine is listed with a tunnel exactly when it was last observed online or degraded and the tunnel is online or offline; that it is to be active follows |
| HubInvariants.RevivedMachineIsListedWithNegativePort | api.go:1083 | disabling, enabling and observing any retired machine of a good store lists it with a negative port |
| HubWitnesses.ARetiredMachineCanBeListed | api.go:1083 | a run from an empty store that ends with a machine listed with a negative port |
| HubWitnesses.SomethingIsCreatable | provisioner.go:105-151 | there is a store and a machine for which these runs exist |
| HubInvariants.ReleaseIsNoOp | db.go:349-401 | on a store built by this code the migration changes nothing |
| HubInvariants.ReleaseRowWorks | db.go:378-398 | an update of the migration is refused exactly when another tunnel has the name |
| HubInvariants.ReleaseRowsWorks | db.go:378-398 | the loop of the migration goes through if and only if the name each row is to get is free in the store it starts from; it releases exactly the rows before the first taken name and changes nothing else |
| HubInvariants.MigrationReleasesRetiredTunnels | db.go:349-401 | on any older store with distinct rows the migration succeeds if and only if the name of every retired tunnel is free, and then releases their ports and names; it always records the originals and touches no other row |
| RateLimiter.RateLimit.Check | ratelimit.go:40-65 | one call of allow, clean-up included |
| RateLimiter.RateLimit.RemoveExpired | ratelimit.go:48-52 | the deletion loop removes exactly the expired buckets |
| RateLimiter.CleanupIsInvisible | ratelimit.go:47-64 | as long as no call has a time before a clean-up it comes after, every answer is the one of a limiter without clean-up |
| RateLimiter.CleanupShowsExactly | ratelimit.go:44-64 | the next call is answered differently if and only if its time is before the last clean-up and its bucket, full, was dropped then but had not expired at its time |
| RateLimiter.CleanupShowsByOwnCalls | ratelimit.go:44-64 | the same by the calls alone: exactly when the key's last window includes the call's time, had ended at the last clean-up, and has seen as many calls as the limit |
| RateLimiter.OwnCallsFixTheBucket | ratelimit.go:55-64 | without clean-up a key's bucket depends only on that key's calls: its end on the call that opened the last window, its count on the number of calls since |
| RateLimiter.NonDecreasingIsInOrder | ratelimit.go:44-64 | times that never fall satisfy the condition |
| RateLimiter.CleanupShowsWhenCallsOvertake | ratelimit.go:44-64 | three calls of which one reads its time first and gets the lock last, and is let through only because of the clean-up |
| RateLimiter.SlidingBound | ratelimit.go:40-65 | no interval up to the window sees more than 2 * max(limit, 1) allowed calls for a key |
| RateLimiter.RefusedOnlyWhenFull | ratelimit.go:55-64 | a call is refused only when its key has had the full limit of calls within the last window |
| Utf8.TruncateUTF8Bytes | cmd/reach-agent/process_title.go:151-167 | longer than the limit: the longest valid prefix that fits, valid input or not; at most three bytes short if the input is valid; otherwise the input itself |
| Utf8.DecodeLastSize | cmd/reach-agent/process_title.go:159 | the size the library reports is one, or that of a whole last character |
| Utf8.SkipsNothing | cmd/reach-agent/process_title.go:158-165 | skipping that many bytes skips no valid prefix |
| Utf8.EncodedIsRune | cmd/reach-agent/process_title.go:158 | the encoding of every Unicode scalar value is accepted as one character |
| Utf8.RuneIsEncoded | cmd/reach-agent/process_title.go:158 | every accepted character is the encoding of a scalar value |
| Utf8.ValidIsText | cmd/reach-agent/process_title.go:158 | the valid strings are exactly the encodings of sequences of Unicode scalar values |
| Utf8.BoundaryNear | cmd/reach-agent/process_title.go:151-167 | valid text has a character boundary at most three bytes below any length |
| Sse.ParseSSE | cmd/reach-mac-agent/main.go:171-212 | the parser's loop delivers the events of the specification |
| Sse.FieldLineFeeds | cmd/reach-mac-agent/main.go:196-207 | a line with a colon: id, event and data take what follows, without one leading space, other fields do nothing |
| Sse.IgnoredLines | cmd/reach-mac-agent/main.go:193-199 | comments, and other lines without a colon, do nothing |
| Sse.LineLimit | cmd/reach-mac-agent/main.go:172-175 | a line ends the parser with an error exactly from 65536 bytes on |
| Sse.ParseWholeLines | cmd/reach-mac-agent/main.go:171-212 | lines that fit the scanner are processed one by one |
| Sse.StreamIsReceived | events.go:109-125 | the retry line and any interleaving of newline-free events and keepalives is received event for event, in order, without an error |
| Sse.BrokenStreamIsAPrefix | cmd/reach-mac-agent/main.go:171-212 | a stream cut after any byte yields a prefix of those events |
| Sse.ReceivedUnchanged | cmd/reach-mac-agent/main.go:185-187 | an event arrives unchanged exactly when it has a type and no field ends in a carriage return |
| ShellQuote.QuoteIsOneWord | cmd/reach-agent/install.go:1407-1409 | a shell reads the quoted text as one word equal to the text, whatever follows, exactly when it has no NUL |
| ShellQuote.QuotedArgumentsSurvive | cmd/reach-agent/install.go:1407-1409 | any list of arguments, quoted and joined with spaces, is split into the same list |
| ShellQuote.QuoteIsInjective | cmd/reach-agent/install.go:1407-1409 | different texts have different quotations |
| ShellQuote.AgentCommandStartsAgent | cmd/reach-agent/install.go:1400-1405 | the command line starts the agent with exactly its path, or path, run, --config and the configuration |
| AuthKeys.AuthFile.SyncKeys | cmd/reach-agent/main.go:1065-1104 | the file after a sync |
| AuthKeys.AuthFile.InstallAdminKeys | cmd/reach-agent/install.go:765-823 | the file after an install; it succeeds exactly when some key is acceptable, and a failure leaves the file alone |
| AuthKeys.AuthFile.RemoveMarker | cmd/reach-agent/install.go:1684-1705 | the file after a removal |
| AuthKeys.EntriesOfWantedKeys | cmd/reach-agent/main.go:1076-1099 | one entry per key that is not blank and of a supported type, in order: the restrictions unless the internal sshd reads the file, the trimmed key, the marker |
| AuthKeys.OperationKeepsForeign | cmd/reach-agent/install.go:765-823 | one operation on any file with any keys: the foreign lines stay, followed by exactly the unmarked lines of the entries it writes, and the marked lines of a file it writes are those of its own entries |
| AuthKeys.LeaksNothingExactly | cmd/reach-agent/main.go:1076-1099 | an operation adds no foreign line exactly when every line of every entry it writes is blank or marked |
| AuthKeys.OneLineKeysLeakNothing | cmd/reach-agent/main.go:1076-1099 | so do all operations whose keys have no newline inside |
| AuthKeys.ForeignLinesGrowByLeaks | cmd/reach-agent/main.go:1065-1104 | over any sequence of installs, syncs and removals the foreign lines only grow, by what each operation leaks, in order |
| AuthKeys.ForeignLinesNeverChange | cmd/reach-agent/main.go:1065-1104 | over any sequence of installs, syncs and removals the non-blank unmarked lines stay the same in the same order if and only if no operation leaks |
| AuthKeys.SyncForgetsHistory | cmd/reach-agent/main.go:1065-1104 | a sync gives the same file whatever operations came before, if and only if none of them leaked; in particular syncing one-line keys is idempotent |
| AuthKeys.NothingMarkedRemains | cmd/reach-agent/install.go:1684-1705 | after syncing a disabled machine or removing, no marked line is left, whatever the file |
| AuthKeys.BrokenKeyLeavesALine | cmd/reach-agent/main.go:1076-1099 | the first part of an accepted key with a newline inside is in the file after every later sequence of operations, disabling and removal included |
| AuthKeys.TwoKeysInOneValue | cmd/reach-agent/main.go:1076-1099 | two keys in one value: after a sync and a disabling sync the first is still in the file |
| HostKeys.IntersectAlgorithms | cmd/reach-agent/hostkey_algorithms.go:154-168 | the loop computes the first occurrences of the request, cut to the pins |
| HostKeys.IntersectMeans | cmd/reach-agent/hostkey_algorithms.go:154-168 | the result is duplicate-free and, as a set, the intersection |
| HostKeys.KnownHostsFieldMatches | cmd/reach-agent/hostkey_algorithms.go:94-123 | the loop over patterns with its early exits |
| HostKeys.FieldMatchMeans | cmd/reach-agent/hostkey_algorithms.go:94-123 | a host matches exactly when some pattern names it, none excludes it and none is malformed; a malformed pattern is an error exactly when no exclusion precedes it |
| HostKeys.HostFieldMeans | cmd/reach-agent/hostkey_algorithms.go:94-123 | on the text of the field: it covers the hub exactly when some part names it, no part behind a '!' does and none is malformed; hashed and blank parts do not count |
| HostKeys.WhatALinePins | cmd/reach-agent/hostkey_algorithms.go:36-92 | what any line of known_hosts pins, and when it is an error; comments, blank lines, revoked keys and certificate authorities pin nothing |
| HostKeys.PinnedHostKeyAlgorithms | cmd/reach-agent/hostkey_algorithms.go:28-74 | a list exactly when every line can be read and some key is for the hub: the key types, each once, in file order |
| HostKeys.ParseSSHOption | cmd/reach-agent/embedded_ssh.go:154-174 | the parsing loop computes the specified option |
| HostKeys.OptionMeans | cmd/reach-agent/embedded_ssh.go:154-174 | an option is read exactly if there is an '=' with something before it and some value behind it |
| HostKeys.ClientConfig.ApplySSHCompatOptions | cmd/reach-agent/embedded_ssh.go:127-152 | the four settings after the options, and where a failure stops |
| HostKeys.LastOptionCounts | cmd/reach-agent/embedded_ssh.go:127-152 | key exchanges, ciphers and MACs are those of the last option for each, or as they were |
| HostKeys.FirstOptionSets | cmd/reach-agent/embedded_ssh.go:136-146 | without pinned keys the first option for the host key algorithms sets them |
| HostKeys.NarrowingIsIntersection | cmd/reach-agent/embedded_ssh.go:127-152 | from a pinned list the options succeed exactly when some algorithm is pinned and allowed by all of them, and leave exactly those, each once; the list is never empty and never leaves the pins |
| HostKeys.OfferedIsPinned | cmd/reach-agent/embedded_ssh.go:96-125 | every algorithm offered is the type of a key pinned for the hub |
| HostKeys.OptionRoundTrip | cmd/reach-agent/embedded_ssh.go:154-174 | an option is read as written, without a modifier in front of its list |
| Backoff.DelayDoubles | cmd/reach-agent/main.go:772-789 | after any history the delay is the smallest delay times two to the number of repeated failures, at most the largest delay |
| Backoff.DelaysAsConfigured | cmd/reach-agent/main.go:772-789 | in terms of the configuration: after k repeated failures restart_min times 2^k, at most restart_max, with the two defaults |
| Backoff.DelayWraps | cmd/reach-agent/main.go:1208-1217 | from 2^62 ns on, repeated failures reach a negative delay |
| Backoff.DelaysStayInRange | cmd/reach-agent/main.go:772-794 | every delay is between the smallest and the largest exactly when the largest is below 2^62 ns |
| AgentDaemon.Daemon.SetTunnel | cmd/reach-agent/main.go:1161-1173 | a connected-since time exists exactly while the status is connected, and the first one is kept |
| AgentDaemon.Daemon.StartTunnel | cmd/reach-agent/main.go:727-747 | with none held: a dial that works leaves one new tunnel, alive, held and shown as connected; one that fails leaves nothing alive and shows failed; the invariant is kept |
| AgentDaemon.Daemon.StopTunnelProcess | cmd/reach-agent/main.go:795-808 | nothing is held and nothing alive afterwards, even if the tunnel does not end in time |
| AgentDaemon.Daemon.NextTunnelRestartDelay | cmd/reach-agent/main.go:772-789 | the delay is a function of the failure history alone; below 2^62 ns it is the smallest delay doubled for each failure in a row, up to the largest |
| AgentDaemon.Daemon.Execute | cmd/reach-agent/main.go:605-684 | an acknowledged start means that the local sshd was up and a tunnel is held and shown as connected, alive exactly if one held before had not ended; a stop leaves nothing alive, other commands do not touch the tunnel; when each kind of command is acknowledged; the invariant is kept |
| AgentDaemon.Daemon.ApplyCommand | cmd/reach-agent/main.go:605-688 | exactly one result is added, with the command's id and that meaning, and it is in a heartbeat at once; the invariant is kept |
| AgentDaemon.Daemon.Reconcile | cmd/reach-agent/main.go:559-596 | nothing is alive after an answer that does not want the tunnel whatever its commands, one is held after one that does and finds it possible, nothing changes without an answer; the invariant is kept |
| AgentDaemon.Daemon.HandleTunnelEnd | cmd/reach-agent/main.go:523-537 | nothing is held or alive afterwards, the status tells failure from a normal end, the delay grows exactly for a failure while running; the invariant is kept |
| AgentDaemon.Daemon.Turn | cmd/reach-agent/main.go:518-546 | one turn of the main loop keeps the invariant |
| AgentDaemon.Daemon.RunLoop | cmd/reach-agent/main.go:508-547 | the whole main loop computes the run of its events and ends with nothing alive and every result reported |
| Agent.ReconcileWorks | cmd/reach-agent/main.go:559-596 | an answer that does not want the tunnel leaves none held whatever its commands; one that wants it and finds it possible leaves one held; no answer changes nothing |
| Agent.WhatAnAnswerDoes | cmd/reach-agent/main.go:573-595 | following an answer, case by case: stopped for good; left as it was; one new live tunnel; or a failed dial |
| Agent.StepKeepsInv | cmd/reach-agent/main.go:518-546 | every turn of the main loop keeps the invariant |
| Agent.EveryLoopHead | cmd/reach-agent/main.go:508-547 | at every loop head at most one tunnel is alive, it is the held one, and the status is "connected" with a time exactly when one is held |
| Agent.NothingRunsUnwanted | cmd/reach-agent/main.go:573-595 | after an answer that is not active and enabled no tunnel is alive, even if a command said start |
| Agent.ShutdownStopsEverything | cmd/reach-agent/main.go:810-813 | the final shutdown leaves nothing alive, and the status as it was |
| Agent.DelayInRange | cmd/reach-agent/main.go:534-536 | in every run the delay in force is zero or within its limits |
| Agent.EveryCommandIsReported | cmd/reach-agent/main.go:721-725 | every command received gets exactly one result, put into exactly one heartbeat, in order; none is waiting at a loop head |
| Agent.GenerationIsLargestApplied | cmd/reach-agent/main.go:605-640 | in every run the applied generation is the largest among the starts, stops and successful key syncs received, so it never goes back |
| Agent.AckMeansDone | cmd/reach-agent/main.go:605-688 | a start is acknowledged exactly when the local sshd was up and a tunnel was held or could be opened, and the tunnel then held is alive exactly if the one held before, if any, had not ended; a stop leaves it down, other commands do not touch it, and key syncs and updates are acknowledged exactly if they worked |
| Agent.AStartCanBeAcknowledgedInVain | cmd/reach-agent/main.go:607-617 | a run in which a start is acknowledged and nothing is alive |
| Agent.ConnectedSinceIsStable | cmd/reach-agent/main.go:1161-1173 | while the same tunnel is held the reported connected-since time does not change |

## Left out

- Everything outside the files above: HTTP upgrade, TLS, the SSH library's tunnel and sessions, the embedded sshd, installation backends, the updater, the dashboard, the command line.
- Fragmented WebSocket messages: `readFrame` ignores FIN and opcode 0 is dropped, so the statements are about peers that do not fragment, as `writeFrame` does not.
- io.EOF and io.ErrUnexpectedEOF are one error in the model.
- Frames.Xor: exclusive or on numbers below 256, bit by bit, instead of a machine operation.
- Pump.FramingIsNeverTorn: speaks, like the other theorems about runs of Pump, about runs up to the first write that fails; after one the connection may end inside a frame, and the answerer goes on. A failing write to plainOut only stops the answerer and is not a step of its own.
- SharedConn.CallersNeverTear: the same holds for the callers of a wsConn, whose frames are taken to be within the 16 MiB that the peer accepts.
- The end of `pump` and the closing of its connections by the callers.
- Requests: a hash stands for the secret it was made from, random tokens are fresh, and times are numbers; invites, metadata checks and events are omitted. `Requests.Table` runs one handler at a time, the interleavings are on values.
- Hub: SetDesiredState is one step, with everything it reads and writes; of the other handlers recomputeObserved, queueAgentUpdate and CreateMachine are split. No statement fails but those that break a UNIQUE constraint and the last UPDATE of a retirement; system accounts, sshd, audit, expiry columns, command status and delivery are omitted. The configured port range starts above zero. The machine part of ExpireOnce is a sequence of SetDesiredState steps.
- HubInvariants.RevivedMachineIsListedWithNegativePort: nothing is claimed about what ssh does with such an entry.
- Slug.NormalizeSlug: strings.TrimSpace and strings.ToLower are a parameter, and the results hold for any such function; idempotence asks that it leaves slugs alone.
- RateLimiter: only the in-memory path. The persistent one compares times as strings, which is not chronological.
- Utf8: utf8.ValidString and utf8.DecodeLastRuneInString are written out from their documentation.
- Sse: a char is one byte; cancellation by context, the broker behind the stream and the replay after a reconnect are omitted.
- ShellQuote: the scanner knows single quotes and the backslash; any other special character outside quotes makes it give up, so that nothing is claimed about such text. What cron does to a percent sign is not part of this model.
- AuthKeys: reading and writing the file always works as a whole; permissions and ownership are omitted. A line is marked if it contains the marker, so a line of a machine whose identifier extends this one's counts as marked, as in the code. Both editors use the same machine identifier.
- HostKeys: net.SplitHostPort with path.Match, ssh.ParseAuthorizedKey and strings.ToLower are parameters; hashed entries are ignored as in the code; scanner errors on very long lines are omitted.
- Agent: a tunnel may end at any time; since the daemon learns of it only at a loop head or while stopping, the end is a step between loop turns. Transport status, last error, the process title and the local sshd are omitted, and so are the commands in answers to the heartbeats sent from within a command, which the daemon discards.
- Agent.EveryCommandIsReported: a heartbeat that fails takes its results with it, as in the code; the statement is about what is put into heartbeats, not about what the hub receives.
