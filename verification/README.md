# Verified model of pesigitg

pesigitg is a layer-4 QUIC load balancer: an XDP program redirects QUIC frames to
AF_XDP sockets, one worker per queue decodes the server id out of the connection ID
(QUIC-LB), rewrites the destination MAC and sends the frame on, and an optional Retry
responder answers unvalidated Initials. This project models its data path and the
control loops that feed it, and proves what they are for. `dafny verify dfyconfig.toml`
checks everything.

| files | what they model |
|---|---|
| `Ring.dfy`, `Socket.dfy`, `Worker.dfy` | the shared-memory rings atomic step by atomic step, the four rings as objects, and the worker loop with the kernel and restarts |
| `Cipher.dfy`, `Routes.dfy`, `Cid.dfy` | the four-pass cipher, route configuration, CID minting and decoding |
| `Wire.dfy` | frame parsing in the daemon and in the XDP program |
| `ConnTable.dfy`, `Fallback.dfy`, `Forwarding.dfy` | connection table, fallback pool, the routing pipeline |
| `Initial.dfy`, `Token.dfy`, `RetryPacket.dfy`, `Checksum.dfy`, `RetryPath.dfy` | the Retry responder |
| `LoadRate.dfy`, `Health.dfy`, `Stats.dfy`, `Dispatch.dfy` | the shared rate tracker, health checking, counters, and the dispatch of one batch |
| `Reports.dfy` | the counters read word by word while the workers flush into them, and the logged deltas |
| `Control.dfy` | start-up, reload and the periodic check, which publish route tables, and the workers' snapshots of them |
| `Calendar.dfy`, `Bits.dfy` | date conversion; words, masks, XOR and big-endian numbers |

Main results, in one line each:

- A ring is a bounded FIFO for every interleaving of its two parties and every
  wrap-around of its index words, down to single slot copies (`RingProtocol.RingSafety`).
- No UMEM frame is lost or duplicated in any run of worker and kernel, and none is
  lost in a hand-off between processes (`WorkerLoop.FramesConserved`,
  `WorkerLoop.HandoffLosesNothing`).
- A CID minted by a backend routes to that backend in every mode
  (`Cid.MintedRoutes`, `Forwarding.MintedIsForwarded`).
- A flow that the fallback path has assigned is forwarded to the same server for 5 s,
  across sweeps and table swaps (`Forwarding.FlowAffinity`); and in every history of
  reloads, health checks, snapshots and packets a fallback forward goes to a server that
  a published table, in use less than 5 s earlier, held as healthy
  (`ControlLoop.FallbackUsesPublished`).
- Parsing an Initial and serialising one are inverse (`Initial.SerialisedParses`,
  `Initial.ParsedTiles`); an emitted Retry is the flow reversed, carries valid
  checksums, and the client's answer to it is forwarded (`RetryPath.EmittedReply`,
  `RetryPath.RetryRoundTrip`).
- The rate tracker counts every Initial in exactly one window under any interleaving
  (`LoadRate.RatesPartitionInitials`).
- Health flags, transition counts and dates mean what they say after every history
  (`Health.TableShowsHistory`), and the counters balance after every batch
  (`Dispatch.RunBatch`) and, whatever the other workers do, between all flushes of every
  run (`Reports.BooksBetweenFlushes`).
- A report read while the workers flush lies, counter by counter, between the totals when
  it began and when it ended, and no later one is below it, so that no logged delta wraps
  (`Reports.ReportBounded`, `Reports.ReportsGrow`).

A call that slices or indexes out of range panics in Rust, which ends the worker. Such a
call has the value `Panics` here, so that it can be said when it happens.

Seven things the code does not do for all inputs, each with a concrete input and the exact
condition:

- A config with a key and a nonce of 17 or 18 bytes passes validation, and decoding any
  CID with it panics, because the nonce does not fit the 16-byte round block
  (`Cid.DecodingPanicsExactly`, `Cid.LongNonceCannotDecode`); minting panics for the same
  reason (`Cid.MintingPanicsExactly`, `Cid.LongNonceCannotMint`).
- The ICMP path slices behind the echoed UDP header while the parser asks only for the
  ports. Dispatching a batch panics if and only if it holds such a frame or one to be
  decoded with such a config (`Dispatch.EchoPanicsExactly`, `Dispatch.BatchPanicsExactly`,
  `Dispatch.ShortEchoV4Panics`, `Dispatch.ShortEchoV6Panics`).
- A reply's IPv4 header checksum is summed over the received header length, although
  the reply has a 20-byte header; it verifies exactly when the bytes of the UDP header and
  the Retry summed in excess come to a multiple of 0xffff (`RetryPath.Ipv4ReplyExactly`),
  which for one word of options means the two ports cancel
  (`RetryPath.Ipv4OptionsExactly`, `RetryPath.OptionsBreakChecksum`).
- The XDP program reads only five bits of an extension header's length; its walk and the
  daemon's pass through the same offsets exactly when no length exceeds 31
  (`XdpFilter.WalksVisitSameExactly`, `XdpFilter.LongExtensionDisagrees`).
- The documentation of the rate tracker speaks of the most recently completed window.
  The code reports the previous run of equal seconds (`LoadRate.RateIsPreviousRun`), and
  that is the second's total exactly when nothing was recorded in that second before the
  run (`LoadRate.RateIsSecondExactly`); so it is for clocks that do not go back
  (`LoadRate.RateIsLastFullSecond`), and not after a late flush (`LoadRate.LateFlushHidesRate`).
- A comment in the health checker says that its mirror restores the health flags on the
  next probe after a reload. The mirror works on a copy of the table, and the copy is
  stored only if a flag flipped or a MAC was missing. The published table agrees with the
  health state after a check if and only if the check probed something and stored the
  copy, or it agreed before (`ControlLoop.RecheckAgreesExactly`,
  `ControlLoop.ReloadAgreesExactly`). So at any point of any history it disagrees exactly
  when the last accepted reload listed a server known as up and no check since has done
  both (`ControlLoop.AgreesExactly`); a healthy server can stay down, with an empty pool,
  through any number of checks (`ControlLoop.ReloadStaysDark`).
- The documentation calls a statistics report a snapshot at a point in time. The counters
  are loaded one after the other: a report counts what there was when it began exactly
  when no counter was added to before it was loaded (`Reports.StartReportExactly`), and it
  can show a frame as forwarded that it does not show as received (`Reports.TornReport`).

## Model

| member | source | states |
|---|---|---|
| `RingProtocol.StepKeepsInv` | pesigitg-daemon/src/xdp_adopt.rs:100-143 | every atomic step of either party stays inside the slot array and keeps the ring invariant |
| `RingProtocol.RingSafety` | pesigitg-daemon/src/xdp_adopt.rs:100-143 | in every state of every interleaving: released is a prefix of published, never more than `size` entries, the wrapping words measure the queue and every unreleased entry is in its slot |
| `RingProtocol.StepRefinesQueue` | pesigitg-daemon/src/xdp_adopt.rs:100-143 | only the two releasing stores change the abstract FIFO, by exactly the accepted prefix or exactly what was read; batch sizes are min(free, offered) and min(available, room) |
| `RingProtocol.WordsMeasureQueue` | pesigitg-daemon/src/xdp_adopt.rs:107-108 | wrapping subtraction of the words is the queue length, and of that from the size the free room |
| `RingProtocol.SlotOfWord` | pesigitg-daemon/src/xdp_adopt.rs:107-111 | masking an index word is the history position modulo the ring size, across 32-bit wrap-around |
| `AdoptedSocket.Ring.constructor` | pesigitg-daemon/src/xdp_adopt.rs:692-738 | when the words delimit at most a ring full, the mapped ring is valid and its queue is what the slots hold between the words |
| `AdoptedSocket.Ring.Produce` | pesigitg-daemon/src/xdp_adopt.rs:100-119 | an undisturbed call is one pass through the protocol's own steps, and appends the longest prefix that fits |
| `AdoptedSocket.Ring.Consume` | pesigitg-daemon/src/xdp_adopt.rs:125-143 | likewise, and moves the front of the queue, as much as the buffer takes, into the buffer |
| `AdoptedSocket.Socket.PollRecv` | pesigitg-daemon/src/xdp_adopt.rs:391-411 | nothing unless the poll reports the socket readable, else the front of the rx queue |
| `AdoptedSocket.Socket.Transmit` | pesigitg-daemon/src/xdp_adopt.rs:414-430 | a prefix of the descriptors joins the tx queue |
| `AdoptedSocket.Socket.RefillDescs` | pesigitg-daemon/src/xdp_adopt.rs:433-447 | the addresses of a prefix of the descriptors join the fill queue |
| `AdoptedSocket.Socket.CompleteDescs` | pesigitg-daemon/src/xdp_adopt.rs:450-476 | completions move to the fill queue in order; what did not fit is left in the caller's buffer |
| `WorkerLoop.StepKeeps` | pesigitg-daemon/src/threading.rs:491-689 | every step of worker, kernel or hand-off keeps the number of owners of every frame |
| `WorkerLoop.FramesConserved` | pesigitg-daemon/src/threading.rs:491-689 | in every run of one process every UMEM frame has exactly one owner, whatever the ring sizes |
| `WorkerLoop.OfferFits` | pesigitg-daemon/src/xdp_adopt.rs:242-248 | singly owned frames always fit a ring with one slot per frame |
| `WorkerLoop.HandoffLosesNothing` | pesigitg-daemon/src/xdp_adopt.rs:294-343 | with full-sized rings, across any number of restarts: single ownership, an empty pending list, and at each stop every frame in a ring or with the kernel |
| `Cipher.PassTwice` | contrib/quic-lb-core/src/lib.rs:194-222 | a Feistel pass that returns is undone by itself |
| `Cipher.PassesUndone` | contrib/quic-lb-core/src/lib.rs:194-222 | any sequence of passes that returns is undone by the same passes backwards, for any block function |
| `Cipher.PassesPanicExactly` | pesigitg-routing/src/cid.rs:164-194 | passes index out of range if and only if a half is longer than the 16-byte block |
| `Cipher.FourPassInverse` | pesigitg-routing/src/cid.rs:164-194 | for all halves up to 16 bytes both directions return, and each undoes the other |
| `Cipher.BuildBlock` | pesigitg-routing/src/cid.rs:164-194 | the half over a zero block with the round number in its first byte; panics for a half of more than 16 bytes |
| `Cipher.PassInPlace` | pesigitg-routing/src/cid.rs:164-194 | one in-place pass returns exactly when the specified pass does, computes it, and leaves the rest of the buffer |
| `Cipher.EncryptFourPass` | contrib/quic-lb-core/src/lib.rs:194-222 | the encoder's loop computes the four passes in ascending order, or panics where they do |
| `Cipher.DecryptFourPass` | pesigitg-routing/src/cid.rs:164-194 | the decoder's loop computes them in descending order, or panics where they do, and leaves the tail of its 19-byte buffer |
| `Routes.FindServerIdx` | pesigitg-routing/src/route.rs:267-272 | the first server with the id, and none exactly when no server has it |
| `Routes.ParseRoutes` | pesigitg-routing/src/route.rs:279-307 | accepts exactly the non-empty lists of acceptable configs with distinct ids, and returns them validated in order |
| `Cid.ResolveServerIdx` | pesigitg-routing/src/cid.rs:124-149 | the server whose id is the decrypted prefix of the CID, in all three modes; none for a short CID; panics where decryption does |
| `Cid.ResolvingPanicsExactly` | pesigitg-routing/src/cid.rs:124-149 | decoding a DCID panics if and only if it has full length and the config is four-pass with a nonce of more than 16 bytes |
| `Cid.DecodingPanicsExactly` | pesigitg-routing/src/route.rs:178-253 | for every config validation accepts and every DCID: decoding panics if and only if there is a key, the nonce is longer than 16 bytes and the DCID has full length |
| `Cid.LongNonceCannotDecode` | pesigitg-routing/src/route.rs:178-253 | an accepted config with a 17-byte nonce for which every full-length DCID panics |
| `Cid.EncodeInto` | contrib/quic-lb-core/src/lib.rs:123-160 | writes exactly the minted CID and nothing behind it; panics for a short buffer or where minting does, and then writes nothing |
| `Cid.MintingPanicsExactly` | contrib/quic-lb-core/src/lib.rs:95-160 | of all encoders the constructor admits, minting panics if and only if a single-pass payload or a four-pass nonce exceeds 16 bytes |
| `Cid.LongNonceCannotMint` | contrib/quic-lb-core/src/lib.rs:95-160 | one such encoder |
| `Cid.MintedDecodes` | contrib/quic-lb-core/src/lib.rs:123-222 | whatever an encoder mints, decoding under the matching config returns server id and nonce, in all three modes |
| `Cid.MintedRoutes` | pesigitg-daemon/src/cid.rs:26-38 | any long- or short-header packet carrying a minted CID selects its config and the first server with the minting id |
| `Wire.WalkHeaders` | pesigitg-daemon/src/packet.rs:445-516 | the extension-header loop visits at most six headers as the recursive walk does |
| `Wire.ParseFrame` | pesigitg-daemon/src/packet.rs:298-606 | offsets of a parsed frame: UDP payload inside the frame, echoed payload at most four bytes past its end |
| `XdpFilter.XdpWalkHeaders` | pesigitg-ebpf/src/main.rs:142-219 | the XDP program's loop is its recursive walk |
| `XdpFilter.WalkTraceEnds` | pesigitg-daemon/src/packet.rs:445-516 | the recorded offsets of the daemon's walk end where the walk ends |
| `XdpFilter.XdpTraceEnds` | pesigitg-ebpf/src/main.rs:142-219 | and those of the XDP program's walk where that ends |
| `XdpFilter.WalksVisitSameExactly` | pesigitg-ebpf/src/main.rs:142-219 | the two walks pass through the same offsets if and only if every length the daemon reads is at most 31 |
| `XdpFilter.WalksAgree` | pesigitg-ebpf/src/main.rs:142-219 | and then both end at the same header, or both without one |
| `XdpFilter.ParsersAgree` | pesigitg-ebpf/src/main.rs:91-219 | on every frame the daemon can route whose extension headers are short, the XDP program finds the port the daemon routes by |
| `XdpFilter.LongExtensionDisagrees` | pesigitg-ebpf/src/main.rs:142-219 | a frame with one long header on which the two parsers read different ports |
| `ConnTable.KeyCollides` | pesigitg-daemon/src/conntable.rs:59-67 | two DCIDs share a key if and only if they agree on their first 20 bytes |
| `ConnTable.ConnectionTable.constructor` | pesigitg-daemon/src/conntable.rs:96-102 | a new table is empty |
| `ConnTable.ConnectionTable.LookupMac` | pesigitg-daemon/src/conntable.rs:105-120 | the live flow entry, else the live DCID entry, else none |
| `ConnTable.ConnectionTable.InsertFlow` | pesigitg-daemon/src/conntable.rs:123-131 | both indexes get the entry, everything else stays |
| `ConnTable.ConnectionTable.RecordKey` | pesigitg-daemon/src/conntable.rs:134-136 | the DCID index gets the entry, everything else stays |
| `ConnTable.ConnectionTable.MaybeSweep` | pesigitg-daemon/src/conntable.rs:139-146 | drops exactly the expired entries, and only when the interval has passed |
| `ConnTable.LookupAgreesWithHistory` | pesigitg-daemon/src/conntable.rs:105-146 | after every history a lookup answers from the newest unexpired record, flow first |
| `ConnTable.SweepingIsInvisible` | pesigitg-daemon/src/conntable.rs:139-146 | removing every sweep from a history changes no later answer |
| `Fallback.PoolCovers` | pesigitg-daemon/src/config/route.rs:184-201 | the pool has an address if and only if some healthy, resolved, non-draining server has it |
| `Fallback.PoolMembers` | pesigitg-daemon/src/config/route.rs:184-201 | pool members are eligible servers of the table, one per address |
| `Fallback.RebuildFallback` | pesigitg-daemon/src/config/route.rs:184-201 | the loop computes the first eligible server per address, in slot order |
| `ControlLoop.FromRoutes` | pesigitg-daemon/src/config/route.rs:81-105 | a file makes a table exactly when its routes are accepted, each config filed under its own id |
| `ControlLoop.ResolveMacs` | pesigitg-daemon/src/neigh.rs:108-148 | missing MACs are filled in from the neighbour table, configured ones stay |
| `ControlLoop.HasMissingMac` | pesigitg-daemon/src/config/route.rs:165-170 | true exactly when some server of an active config has no MAC |
| `ControlLoop.Controller.constructor` | pesigitg-daemon/src/main.rs:135-163 | the first published table: routes filed, MACs resolved, pool rebuilt |
| `ControlLoop.Controller.Reload` | pesigitg-daemon/src/config/mod.rs:57-99 | an accepted file replaces the published table, a refused one leaves it, and the backoff timers are reset |
| `ControlLoop.Controller.CheckAndRebuild` | pesigitg-daemon/src/main.rs:431-462 | resolve, check, and store the copy with a rebuilt pool if and only if a MAC was missing or a health flag flipped |
| `ControlLoop.TablesStayGood` | pesigitg-daemon/src/main.rs:431-462 | in every history of start-up, reloads and checks, every published table and snapshot has validated configs in their slots and exactly the pool they call for |
| `ControlLoop.SnapshotIsPublished` | pesigitg-daemon/src/threading.rs:550-557 | what a worker works with is always a table that was published |
| `ControlLoop.PacketsFit` | pesigitg-daemon/src/threading.rs:513-557 | in every history the packets are in time order and each is handled with a good, published table |
| `ControlLoop.FallbackUsesPublished` | pesigitg-daemon/src/packet.rs:209-232 | in every such history a fallback forward goes to a MAC that a published table, in use less than 5 s earlier, held for a healthy server |
| `ControlLoop.RecheckAgreesExactly` | pesigitg-daemon/src/main.rs:431-462 | after a check the published flags are those of the health state if and only if the check probed and stored, or they were before |
| `ControlLoop.ReloadAgreesExactly` | pesigitg-daemon/src/config/mod.rs:57-99 | after an accepted reload they are if and only if no listed server is known as up; a refused one changes nothing |
| `ControlLoop.AgreesExactly` | pesigitg-daemon/src/main.rs:431-462 | at every point of every history they are not if and only if some accepted reload listed a server then known as up and since then there was neither another accepted reload nor a check that both probed and stored |
| `ControlLoop.AgreesWithoutReloads` | pesigitg-daemon/src/main.rs:431-462 | so while no reload is accepted they are |
| `ControlLoop.ReloadStaysDark` | pesigitg-daemon/src/health.rs:340-354 | a server that answers every probe stays down, and the pool empty, after a reload of the same file, through any number of checks |
| `Forwarding.WriteMacs` | pesigitg-daemon/src/packet.rs:183-184 | destination and source MAC replaced, everything from byte 12 kept |
| `Forwarding.ProcessUdp` | pesigitg-daemon/src/packet.rs:162-232 | verdict, frame in its chunk and connection table are those of the specified pipeline, and it panics where that does |
| `Forwarding.ProcessIcmp` | pesigitg-daemon/src/packet.rs:240-275 | the echoed packet's source CID decides, else the reversed flow; the table is not changed; panics where the slice or the decoding does |
| `Forwarding.UdpPanicsExactly` | pesigitg-daemon/src/packet.rs:162-232 | a UDP packet panics the worker if and only if its CID selects a config that cannot decode and is long enough |
| `Forwarding.IcmpPanicsExactly` | pesigitg-daemon/src/packet.rs:240-275 | an ICMP error does if and only if the frame ends before the echoed QUIC packet or its SCID cannot be decoded |
| `Forwarding.VerdictsFrame` | pesigitg-daemon/src/packet.rs:162-275 | forwarding touches only the twelve MAC bytes; any other verdict changes neither frame nor table |
| `Forwarding.MintedIsForwarded` | pesigitg-daemon/src/packet.rs:162-232 | a packet with a minted CID goes to the first server with that id when healthy and resolved, and is otherwise dropped as unroutable, never hashed elsewhere |
| `Forwarding.FallbackPassesExactly` | pesigitg-daemon/src/packet.rs:209-232 | the fallback path passes a packet if and only if the table knows no server for it and the pool is empty |
| `Forwarding.EntrySticks` | pesigitg-daemon/src/packet.rs:209-232 | an assigned flow entry survives every later packet and sweep until it expires |
| `Forwarding.FlowAffinity` | pesigitg-daemon/src/packet.rs:209-232 | after an assignment, every packet of the flow that reaches the fallback path within 5 s is forwarded, and to the same MAC, across other packets, sweeps and table swaps |
| `Forwarding.EntriesSourced` | pesigitg-daemon/src/packet.rs:162-232 | every entry in the table was written by an earlier packet for a server then healthy |
| `Forwarding.FallbackIsRecentlyHealthy` | pesigitg-daemon/src/packet.rs:209-232 | for any run over consistent tables, a fallback forward goes to a MAC that a table some packet saw less than 5 s earlier held for a healthy server |
| `Initial.DecodeVarint` | pesigitg-daemon/src/quic/initial.rs:179-190 | the accumulating loop is the big-endian value without the two width bits |
| `Initial.VarintRoundTrip` | pesigitg-daemon/src/quic/initial.rs:179-190 | every legal encoding of a value, minimal or not, reads back as the value |
| `Initial.VarintTiles` | pesigitg-daemon/src/quic/initial.rs:179-190 | everything that reads is the legal encoding of what it reads as |
| `Initial.SerialisedParses` | pesigitg-daemon/src/quic/initial.rs:89-174 | every well-formed Initial, any widths, any trailing bytes, parses to its own fields |
| `Initial.ParsedTiles` | pesigitg-daemon/src/quic/initial.rs:89-174 | every successful parse accounts for every byte up to the packet number |
| `Token.FedInjective` | pesigitg-daemon/src/retry/token.rs:175-189 | the bytes put through the HMAC determine address family, address, timestamp and ODCID |
| `Token.MintToken` | pesigitg-daemon/src/retry/token.rs:108-128 | the filled buffer is timestamp and truncated tag; refused exactly for an ODCID over 20 bytes |
| `Token.MintedVerifies` | pesigitg-daemon/src/retry/token.rs:136-170 | a minted token is invalid before its issue, valid through its lifetime, expired after |
| `Token.TokenIsBound` | pesigitg-daemon/src/retry/token.rs:136-189 | acceptance for another client or ODCID exhibits two messages with one truncated tag |
| `RetryPacket.WriteBody` | pesigitg-daemon/src/retry/packet.rs:95-150 | the fields are laid out in order at a moving offset |
| `RetryPacket.BuildRetry` | pesigitg-daemon/src/retry/packet.rs:95-150 | succeeds exactly within the CID, output and pseudo-packet limits, and then writes the Retry and nothing behind it |
| `RetryPacket.RetryIsNotInitial` | pesigitg-daemon/src/retry/packet.rs:95-150 | no Retry of either version parses as an Initial |
| `RetryPacket.RetryReads` | pesigitg-daemon/src/retry/packet.rs:95-196 | a client reads back version, both CIDs, token and the tag over the ODCID |
| `Checksum.FoldResidue` | pesigitg-daemon/src/retry/datapath.rs:523-530 | folding keeps the residue modulo 0xffff and gives zero only for zero |
| `Checksum.VerifiesExactly` | pesigitg-daemon/src/retry/datapath.rs:523-530 | a receiver accepts a sum if and only if it is a positive multiple of 0xffff |
| `Checksum.SumWithField` | pesigitg-daemon/src/retry/datapath.rs:487-521 | storing a value in a zeroed aligned field adds the value to the sum |
| `Checksum.FoldSlice` | pesigitg-daemon/src/retry/datapath.rs:532-542 | the loop adds the big-endian words, odd last byte padded, modulo 2^32 |
| `Checksum.OnesComplementSum` | pesigitg-daemon/src/retry/datapath.rs:523-530 | the complement of the folded sum, with no wrap for any slice up to 64 KiB |
| `RetryPath.WriteIpv4Checksum` | pesigitg-daemon/src/retry/datapath.rs:487-493 | in place, the frame with its header checksum filled in over the given length |
| `RetryPath.Ipv6UdpChecksum` | pesigitg-daemon/src/retry/datapath.rs:495-521 | the wrapping accumulation loses nothing, and zero is replaced by all ones |
| `RetryPath.WriteIpv6UdpChecksum` | pesigitg-daemon/src/retry/datapath.rs:495-521 | in place, the frame with its UDP checksum filled in |
| `RetryPath.BuildReflectedHeaders` | pesigitg-daemon/src/retry/datapath.rs:389-462 | the fields written at their fixed offsets make up the reflected headers, 42 or 62 bytes |
| `RetryPath.Emit` | pesigitg-daemon/src/retry/datapath.rs:328-387 | the chunk becomes the reply exactly when the reply fits it, and is untouched otherwise |
| `RetryPath.HandleInPlace` | pesigitg-daemon/src/retry/datapath.rs:84-163 | outcome, detail, frame and tally of the whole responder on a UMEM chunk |
| `RetryPath.EmittedIsCounted` | pesigitg-daemon/src/retry/datapath.rs:84-163 | an emission never has the silent detail; a frame changes only by emission; forwarding means a valid token |
| `RetryPath.ReplyReverses` | pesigitg-daemon/src/retry/datapath.rs:389-485 | the reply parses as the same flow reversed, from our MAC to the sender's, with the Retry as payload |
| `RetryPath.EmittedReply` | pesigitg-daemon/src/retry/datapath.rs:84-387 | whatever is emitted is the reversed flow, with a checksum that verifies (IPv6, and IPv4 without options); the client reads from it its own SCID, the ODCID and a fresh token; it is not an Initial |
| `RetryPath.AnsweredIsForwarded` | pesigitg-daemon/src/retry/datapath.rs:239-300 | the Initial a client sends in answer is forwarded unchanged in every mode and at every load while its token lives |
| `RetryPath.RetryRoundTrip` | pesigitg-daemon/src/retry/datapath.rs:84-387 | what the client reads from an emitted frame and returns in its next Initial, from the same address within the lifetime, makes the responder forward that Initial |
| `RetryPath.Ipv4ChecksumExactly` | pesigitg-daemon/src/retry/datapath.rs:487-493 | the reply's IPv4 checksum verifies if and only if the words summed past its 20-byte header are a multiple of 0xffff |
| `RetryPath.Ipv4ReplyExactly` | pesigitg-daemon/src/retry/datapath.rs:380-384 | for every IPv4 request the reply's checksum verifies if and only if the first received-header-length less 20 bytes of UDP header and Retry sum to a multiple of 0xffff |
| `RetryPath.Ipv4ReplyVerifies` | pesigitg-daemon/src/retry/datapath.rs:328-387 | so it verifies for every request without IP options |
| `RetryPath.Ipv4OptionsExactly` | pesigitg-daemon/src/retry/datapath.rs:380-384 | with one word of options it verifies if and only if the two ports sum to a multiple of 0xffff |
| `RetryPath.OptionsBreakChecksum` | pesigitg-daemon/src/retry/datapath.rs:380-384 | a received frame with one option word whose emitted reply does not verify |
| `RetryPath.Ipv6ReplyVerifies` | pesigitg-daemon/src/retry/datapath.rs:495-521 | the UDP checksum of every IPv6 reply verifies over the pseudo-header and is never zero |
| `LoadRate.LoadRateTracker.constructor` | pesigitg-daemon/src/retry/load.rs:36-42 | a new tracker is the replay of no calls |
| `LoadRate.LoadRateTracker.RecordBatch` | pesigitg-daemon/src/retry/load.rs:56-77 | after any undisturbed calls the three counters are the replay of those calls |
| `LoadRate.LoadRateTracker.Rate` | pesigitg-daemon/src/retry/load.rs:47-49 | the total of the run of equal seconds before the last run of the calls taken |
| `LoadRate.RateIsPreviousRun` | pesigitg-daemon/src/retry/load.rs:56-77 | for every history and clock: the history splits into runs of equal seconds, the last being filled and the one before it reported |
| `LoadRate.RateIsSecondExactly` | pesigitg-daemon/src/retry/load.rs:56-77 | the rate is everything recorded in the previous run's second if and only if nothing was recorded in that second before the run |
| `LoadRate.RateIsLastFullSecond` | pesigitg-daemon/src/retry/load.rs:56-77 | hence, with a clock that does not go back, the total of the last second with any call before the current one |
| `LoadRate.LateFlushHidesRate` | pesigitg-daemon/src/retry/load.rs:56-77 | one late flush makes the tracker report 0 although the second before held 100 |
| `LoadRate.AloneIsRecord` | pesigitg-daemon/src/retry/load.rs:56-77 | the atomic steps of an uninterrupted call do exactly what the sequential model says |
| `LoadRate.OneWinner` | pesigitg-daemon/src/retry/load.rs:60-72 | in any run, between two winning exchanges away from the same second another worker has made that second current again |
| `LoadRate.RatesPartitionInitials` | pesigitg-daemon/src/retry/load.rs:56-77 | for any workers, clocks and interleaving: additions are cut in order into windows, each published exactly once, and the rate is zero or one window's total |
| `Health.BackoffMonotone` | pesigitg-daemon/src/health.rs:373-380 | the delay never shrinks with more failures and stays between 5 s and 300 s |
| `Health.TrackMeans` | pesigitg-daemon/src/health.rs:301-338 | healthy if and only if reached once and fewer than three failures since the last success; failures, transitions, dates and next probe are those of the history |
| `Health.TransitionParity` | pesigitg-daemon/src/health.rs:301-338 | once up, the transition count is even exactly while up |
| `Health.StateTracksLives` | pesigitg-daemon/src/health.rs:192-235 | after any run of checks, reloads and resets exactly the configured addresses are tracked, each by its own events since it was added |
| `Health.ProbesArePaced` | pesigitg-daemon/src/health.rs:207-226 | no probe comes before the backoff of the previous one has run out or was reset |
| `Health.HealthChecker.ResetBackoffs` | pesigitg-daemon/src/health.rs:183-188 | every server becomes due now and nothing else changes |
| `Health.HealthChecker.Refresh` | pesigitg-daemon/src/health.rs:192-226 | state for exactly the configured addresses, and the due ones among them |
| `Health.HealthChecker.ApplyProbes` | pesigitg-daemon/src/health.rs:293-338 | each result is applied to its own server only, and a change is reported if and only if some health flag flipped |
| `Health.HealthChecker.MirrorOnto` | pesigitg-daemon/src/health.rs:340-354 | every server entry with a tracked address shows its state; the rest of the table stays |
| `Health.HealthChecker.CheckAll` | pesigitg-daemon/src/health.rs:192-235 | a check is eviction, insertion, probing of the due, and a mirror unless nothing was due |
| `Health.TableShowsHistory` | pesigitg-daemon/src/health.rs:293-357 | after every mirrored check of every run each server entry shows its own address's history |
| `Stats.BatchStats.RecordCidForward` | pesigitg-daemon/src/stats.rs:130-134 | total, routed and its config's counter grow by one |
| `Stats.BatchStats.RecordFallbackForward` | pesigitg-daemon/src/stats.rs:137-140 | total and fallback counter grow by one |
| `Stats.BatchStats.RecordIcmpForward` | pesigitg-daemon/src/stats.rs:143-146 | total and ICMP counter grow by one |
| `Stats.BatchStats.RecordRetry` | pesigitg-daemon/src/stats.rs:171-184 | a silent detail records nothing; any other is seen once, and issued exactly when emitted |
| `Stats.BatchStats.Flush` | pesigitg-daemon/src/stats.rs:188-243 | although it adds only non-zero counters and the per-config ones only behind the total, the worker's slot grows by the whole batch |
| `Stats.WorkerStats.constructor` | pesigitg-daemon/src/stats.rs:49-69 | new books balance |
| `Stats.WorkerStats.RecordPendingFill` | pesigitg-daemon/src/stats.rs:77-81 | a running maximum |
| `Stats.PlusBalanced` | pesigitg-daemon/src/stats.rs:188-243 | balanced books added up are balanced |
| `Stats.Aggregate` | pesigitg-daemon/src/stats.rs:462-494 | the loop sums what was loaded of each slot; if what was loaded of every slot balances against its flushed frames so does the total, and if against its received frames likewise |
| `Stats.AggregateSettled` | pesigitg-daemon/src/stats.rs:462-494 | the same of the sum itself |
| `Stats.AggregatePeak` | pesigitg-daemon/src/stats.rs:481-484 | the aggregate peak is at least every slot's |
| `Reports.FlushAdds` | pesigitg-daemon/src/stats.rs:188-243 | the adds of a flush, taken one by one in its order, come to the whole batch and touch nothing else |
| `Reports.BooksBetweenFlushes` | pesigitg-daemon/src/stats.rs:43-81 | in every interleaving of workers and reports a slot's books balance against what it received, less the batch in dispatch; in mid-flush, once the adds still to come are counted |
| `Reports.LoadsBounded` | pesigitg-daemon/src/stats.rs:462-494 | every value a report loads lies between the counter's values at the report's start and now |
| `Reports.ReportBounded` | pesigitg-daemon/src/stats.rs:462-494 | so does every total of a complete report, and the peak |
| `Reports.QuietReport` | pesigitg-daemon/src/stats.rs:462-494 | a report during which nothing is stored is the state, and balances if no worker is inside its flush |
| `Reports.StartReportExactly` | pesigitg-daemon/src/stats.rs:462-494 | a report counts what there was when it began if and only if every counter was loaded before it was added to |
| `Reports.TornReport` | pesigitg-daemon/src/stats.rs:462-494 | a report that shows one frame forwarded and none received |
| `Reports.DeltaExactly` | pesigitg-daemon/src/stats.rs:318-360 | a delta added to the older report gives the newer one if and only if no counter went back |
| `Reports.ReportsGrow` | pesigitg-daemon/src/main.rs:354-356 | of two reports of one run no counter of the later is below the earlier, so the delta is the true difference |
| `Dispatch.EchoPanicsExactly` | pesigitg-daemon/src/packet.rs:371-443 | routing a parsed ICMP error panics if and only if the frame ends inside the echoed UDP header or the echoed SCID cannot be decoded |
| `Dispatch.ShortEchoV4Panics` | pesigitg-daemon/src/packet.rs:403-407 | a 66-byte ICMP error that does |
| `Dispatch.ShortEchoV6Panics` | pesigitg-daemon/src/packet.rs:578-588 | a 106-byte ICMPv6 error that does |
| `Dispatch.HandlingPanicsExactly` | pesigitg-daemon/src/threading.rs:571-621 | handling a frame panics exactly for the frames of those kinds that are not answered by a Retry |
| `Dispatch.BatchPanicsExactly` | pesigitg-daemon/src/threading.rs:571-661 | dispatching a batch panics if and only if it holds such a frame |
| `Dispatch.HandledIsSound` | pesigitg-daemon/src/threading.rs:571-621 | a frame has no verdict exactly when a Retry was emitted, such an emission is always counted, and every CID verdict names one of the seven slots |
| `Dispatch.TotalsBalanced` | pesigitg-daemon/src/threading.rs:571-662 | the books of any batch: received is forwarded plus both unroutable kinds plus passed plus issued, and every breakdown adds up |
| `Dispatch.ChosenCounts` | pesigitg-daemon/src/threading.rs:622-660 | transmitted is forwarded plus issued, recycled the rest, together the batch |
| `Dispatch.ChosenExactly` | pesigitg-daemon/src/threading.rs:622-660 | a frame is in the list its verdict calls for and in no other |
| `Dispatch.Record` | pesigitg-daemon/src/threading.rs:622-660 | the records made for one frame are its entry in the books |
| `Dispatch.HandleInPlace` | pesigitg-daemon/src/threading.rs:571-621 | one frame in its chunk: parse, Retry and routing as specified, on the bytes and the worker's table |
| `Dispatch.DispatchAll` | pesigitg-daemon/src/threading.rs:571-661 | the loop rewrites the frames in their chunks in order, each on the table the earlier ones left, splits the descriptors, and stops where a frame panics |
| `Dispatch.RunBatch` | pesigitg-daemon/src/threading.rs:557-663 | if the worker's books balanced before a batch they balance after its flush, and every received frame is transmitted or recycled once; a batch that panics is received and not flushed |
| `Calendar.CivilRoundTrip` | pesigitg-daemon/src/utils.rs:257-269 | every day number gives a real calendar date whose day number it is |
| `Calendar.DaysRoundTrip` | xtask/src/main.rs:262-270 | every calendar date is the date of its day number |
| `Calendar.CivilSuccessor` | pesigitg-daemon/src/utils.rs:257-269 | the date of the next day is the next date of the Gregorian calendar |
| `Calendar.CivilExactly` | pesigitg-daemon/src/utils.rs:257-269 | with the cast to a 32-bit year the date is right if and only if the day lies in a stated range |
| `Calendar.InverseOnDays` | xtask/src/main.rs:262-270 | day to date and back on every day of a 32-bit year, except the two months the arithmetic cannot take |
| `Calendar.InverseOnDates` | xtask/src/main.rs:262-270 | date to day and back on every date the arithmetic can take |

## Left out

- AES, HMAC-SHA-256, AES-GCM and FxHash are function parameters; AES decryption is assumed to invert encryption where a single block is decrypted, nothing else is assumed of them.
- Memory ordering: atomic operations are sequentially consistent steps; Acquire, Release and Relaxed are not distinguished.
- System calls, mmap, poll timeouts, wake-ups, `needs_wakeup`, descriptor passing between processes and the xsk back end.
- Frames are identified by their UMEM chunk; `Worker.dfy` does not look inside them and `Dispatch.dfy` does not look at the rings.
- Overflow of 64-bit counters and of 32-bit failure and transition counts.
- The XDP program's port map lookup and redirect; only the port it looks up is modelled.
- TOML, hex and MAC parsing, key ages, the neighbour query itself, the command line, logging, the status API, the control client, thread planning and NUMA placement.
- The QUIC handshake inside a health probe: its result is an input.
- Conformance of the Retry to section 17.2.5.1 of RFC 9000 is not claimed: the code reuses the original DCID as the Retry's source CID, and the model follows it.
- One worker stands for all in `Control.dfy`: workers share nothing but the published table. What becomes of the process after a worker panics is not modelled; histories that go on after a panic are admitted and the theorems hold for them too.
- The rates and the formatting of the statistics: they would only add easy members.
- ParsersAgree: one direction only; frames that the XDP program redirects and the daemon then passes up are not characterised.
- RecordBatch: states one undisturbed call; interleaved calls are RatesPartitionInitials.
- TokenIsBound: says nothing about how hard a collision of the truncated tag is to find.
