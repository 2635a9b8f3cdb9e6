# Reduction: a verified model of the proxy's stateful mechanisms

Reduction is a reverse proxy. This project models the mechanisms that run on every request or datagram and proves what
they keep over all inputs and all runs. `dafny verify dfyconfig.toml` checks everything.

- `ResponseCache` and `CacheKey`: the shared response cache. The store is an LRU list keyed by joined bytes; the reference
  reads the call history by (method, path, identity) triple. Every hit is the last accepted put of that very triple.
- `CircuitBreaker`: the closed / open / half-open machine with its probe counter and the guards that outlive transitions,
  each public operation and each guard drop one atomic step.
- `Compressor`: the streaming compressed body around an arbitrary encoder known only by contract.
- `UdpBatch`, `UdpIngress`, `UdpLoop`, `UdpHistory`, `UdpBounds`, `UdpFrames`, `PlainCodec`: UDP ingress batching.
  `UdpIngress` is the step function, `UdpLoop` the object that updates batches, queues and counters in place and is shown
  to follow the steps, `UdpHistory` a reference that reads only the events, `UdpBounds` the size and waiting-time bounds,
  `UdpFrames` whether every batch fits one frame, for all codecs, `PlainCodec` a codec for which that is decided outright.
- `FsWatch`, `Relay`, `TcpIngress`: three concurrent protocols (trailing-edge debounce, idle watchdog, connection
  accounting), stepped one atomic action at a time in any interleaving. The object each of them shares is a class whose
  methods are the code of one step.
- `Rendezvous`, `Balancer`: FNV-1a hashing, weighted rendezvous scores in exact arithmetic, selection with exclusions.
- `Routing`: longest-prefix routing, the configuration checks it relies on, and the pools its matches name.
- `Protocol`, `Net`: the ingress wire format over an invertible payload codec.
- `Acl`: CIDR folding against a 128-bit reference.
- `Backoff`: retry delays. `Acme`: the pacing of certificate orders, over whole processes from start-up on.

What comes from outside is a parameter or part of an event: the clock, access-list and rate-limiter verdicts, backend
selection as the ingress sees it, the encoder's choices, the payload codec, the jitter draw, and the logarithm, which is
any positive, strictly decreasing function of the hash.

## Where the code and its comments differ

The model follows the code. In five places a comment promises more than the code gives; each has a lemma with a failing
run or input, beside the exact condition under which the promise holds. For frame sizes that condition depends on the
codec: one half of it holds for every invertible one, and it is exact for every codec whose overhead on the batches that
occur is known.

- `src/circuit.rs:54-57` says a guard decrements the probe count unless the circuit has left half-open. A guard carries no
  period, so one that outlives its own half-open period decrements the count of a later one
  (`StaleGuardBreaksTheCount`, `ProbeCountExactIffNoStaleDrop`).
- `src/ingress/batch.rs:21-23` says the byte cap keeps one encoded frame under the frame ceiling. A batch may exceed the cap
  by one datagram, and each datagram brings its peer along: 6 free bytes on an IPv4 socket, 18 on an IPv6 one. By
  counting, no invertible codec can fit all batches unless the largest payload and the peers of the largest batch are
  within the ceiling together (`FramesNeedRoom`), which the default caps break on both (`DefaultCapsOverflowTheFrame`).
  For a codec that adds a known overhead to the batches within the bounds of the caps, frames fit if and only if that
  overhead fits beside the largest payload (`FramesFitIff`); one invertible codec of that kind is given (`PlainFitsIff`).
- `src/proxy/relay.rs:121-123` says the watchdog waits for a full idle timeout. Activity is recorded in whole milliseconds,
  so it can fire up to one millisecond early (`TruncationShortensTheTimeout`, `PromptWatchdogFiresExactly`).
- `src/acl.rs:12-14` folds mapped rules of 96 bits and more. A shorter V6 rule that covers the mapped block reads as if it
  covered IPv4 peers too, and does not (`ShortV6DenyMissesIpv4`, `FoldingKeepsMeaningIff`, `CheckIsReferenceIff`).
- `src/tls/acme.rs:30-34` says the first hour has at most four attempts. That holds for the renewal loop; a failed order at
  start-up is not in its counter, and the loop then sleeps for zero seconds. Over whole processes, five failing orders in a
  row never fall within one hour if and only if it is not the case that the cached certificate was due, still valid, and
  its start-up order failed (`FiveNeverInAnHourIff`, `StartupFailureIsNotPaced`); six never do (`SixNeverInAnHour`).

## Model

| member | source | states |
|---|---|---|
| `CacheKey.KeyInjective` | src/cache.rs:74-91 | Two triples share a key if and only if they are the same triple, whatever bytes the parts hold |
| `CacheKey.FieldIsSelfDelimiting` | src/cache.rs:74-91 | A length-prefixed field splits off the front of any byte string in one way only |
| `CacheKey.WritePieces` | src/cache.rs:139-144 | Writing into a bounded buffer succeeds exactly when everything fits, and then holds all of it |
| `CacheKey.OwnedKey` | src/cache.rs:99-107 | The owned key is the joined encoding of the triple |
| `CacheKey.BuildLookupKey` | src/cache.rs:139-148 | The lookup key has the owned key's bytes for every triple, and is on the stack exactly when it fits 512 bytes |
| `ResponseCache.SanitizedForCache` | src/cache.rs:36-42 | The removal loop leaves exactly the headers outside the never-cache set, with all their values |
| `ResponseCache.Cache.Get` | src/cache.rs:164-188 | On an object with any calls behind it, a hit is the last accepted put of that triple, stripped and within its time to live, and is then in front; after a miss the triple has no slot; the slots of other keys stay |
| `ResponseCache.Cache.Put` | src/cache.rs:190-225 | Accepts exactly the puts without no-store and private, within the entry size, and of non-zero max-age or else default lifetime; a refused one changes nothing, an accepted one is stored stripped |
| `ResponseCache.Cache.Clear` | src/cache.rs:227-232 | Nothing is left |
| `ResponseCache.RunDistinct` | src/cache.rs:164-232 | Every reachable store has one slot per key and at most the configured number of slots |
| `ResponseCache.RunBacked` | src/cache.rs:164-232 | Every slot of every reachable store is what the last accepted put of one triple left |
| `ResponseCache.HitIsLastPut` | src/cache.rs:164-232 | Over every history a hit is the status, body and, name by name, the cacheable headers of the most recent put for that same triple since the last clear that was neither no-store nor private nor too large, served no later than max-age or else the default seconds after it |
| `ResponseCache.RetainedPutHits` | src/cache.rs:155-225 | Such a put is served as long as fewer than the configured number of other triples came between two uses of it; a later get misses exactly on expiry |
| `CircuitBreaker.RunMeaning` | src/circuit.rs:93-192 | On every run: Closed means failures equal the current failure streak, below the threshold, and no opening time; Open and HalfOpen mean failures equal the threshold and the opening time is the last opening |
| `CircuitBreaker.OpensExactlyAtThreshold` | src/circuit.rs:158-183 | A closed breaker opens on exactly the failure that completes a streak of the threshold length |
| `CircuitBreaker.FailureCountNeverWraps` | src/circuit.rs:172-174 | Counting a failure always adds exactly one |
| `CircuitBreaker.NothingAdmittedBeforeRecovery` | src/circuit.rs:104-133 | A request is admitted only by a closed breaker or once the recovery time has passed since the last opening |
| `CircuitBreaker.AdmitsExactly` | src/circuit.rs:104-133 | On every run a request is admitted if and only if the breaker is closed, or open since at least the recovery time, or half-open with fewer probes on the counter than the limit |
| `CircuitBreaker.VerdictTellsTheState` | src/circuit.rs:104-133 | An admitted request is told the state it leaves behind, with a guard exactly if that is half-open; a refused one is told Open and changes nothing |
| `CircuitBreaker.StateMoves` | src/circuit.rs:93-192 | On every run exactly which event moves the state where: the failure that completes a streak opens, the first request after the recovery time probes, a success closes and a failure re-opens a probed breaker, and nothing else moves it |
| `CircuitBreaker.OpenCanAlwaysLeave` | src/circuit.rs:108-122 | An open breaker admits a probe exactly when the recovery time has passed, and a success then closes it |
| `CircuitBreaker.RunAccounted` | src/circuit.rs:66-134 | On every run the half-open counter is, modulo 2^32, the live guards of this period less the stale drops in it, and the probes exceed the limit by no more than those |
| `CircuitBreaker.ProbeCountExactIffNoStaleDrop` | src/circuit.rs:66-134 | The counter equals the live probes of the period if and only if no stale drop shows in it; without one it is within the limit, does not underflow, and admits exactly below the limit |
| `CircuitBreaker.SeparatedPeriodsCountExactly` | src/circuit.rs:66-192 | On runs of any length where all guards are dropped before the next half-open period, the counter equals the live guards, stays within the limit, and no drop underflows it |
| `CircuitBreaker.StaleGuardBreaksTheCount` | src/circuit.rs:66-73 | A run in which a guard of an earlier period leaves the counter one short, the next drop wraps it, and one probe too many is admitted |
| `CircuitBreaker.BackendBreaker.Admit` | src/circuit.rs:104-133 | The fields and the verdict are those of the check step |
| `CircuitBreaker.BackendBreaker.Succeed` | src/circuit.rs:141-155 | The fields are those of the success step |
| `CircuitBreaker.BackendBreaker.Fail` | src/circuit.rs:169-191 | The fields are those of the failure step |
| `CircuitBreaker.HalfOpenGuard.Drop` | src/circuit.rs:66-73 | The slot is given back exactly while the breaker is half-open |
| `CircuitBreaker.CircuitBreakers.Check` | src/circuit.rs:93-134 | An id too long for the key is refused; any other takes the check step on its own breaker, made on first use, and no other id changes; a closed breaker lets it pass without a guard, and a guard holds its breaker |
| `CircuitBreaker.CircuitBreakers.RecordSuccess` | src/circuit.rs:136-156 | A known id takes the success step, an unknown one stays unknown, no other id changes |
| `CircuitBreaker.CircuitBreakers.RecordFailure` | src/circuit.rs:158-192 | An id too long is ignored; any other takes the failure step, made on first use; no other id changes |
| `CircuitBreaker.CircuitBreakers.State` | src/circuit.rs:194-201 | The state of the id's breaker, Closed when there is none |
| `CircuitBreaker.CircuitBreakers.RemoveBackend` | src/circuit.rs:203-205 | The id is forgotten, no other changes, and its old breaker is no longer reachable from the registry |
| `Compressor.CompressChunk` | src/proxy/compress_body.rs:144-170 | Terminates; on success the encoder took every input byte and the result is exactly what it gave out, nothing skipped, overwritten or repeated; only an unreliable encoder makes it fail |
| `Compressor.FinishEncoder` | src/proxy/compress_body.rs:172-195 | Terminates; on success the result is exactly what the encoder gave out and it holds nothing back |
| `Compressor.CompressedBody.PollOffloading` | src/proxy/compress_body.rs:197-231 | Keeps the tally of data fed and sent, hands the encoder back, never loses its blocking job |
| `Compressor.CompressedBody.PollStreaming` | src/proxy/compress_body.rs:233-254 | Keeps the tally of data fed and sent, trailers and inner errors are handed on, an inner body that is not ready is waited for, and a chunk is offloaded exactly when it is over the threshold |
| `Compressor.CompressedBody.CompressFrame` | src/proxy/compress_body.rs:255-270 | A chunk goes to the blocking pool exactly when it is over the threshold; what comes out is sent once, as a non-empty frame |
| `Compressor.CompressedBody.OffloadChunk` | src/proxy/compress_body.rs:272-286 | The encoder moves into a blocking job with the chunk it has still to take |
| `Compressor.CompressedBody.CompressInline` | src/proxy/compress_body.rs:288-310 | The chunk is taken and what the encoder gave is sent as one non-empty frame, or nothing is |
| `Compressor.CompressedBody.PollFlushing` | src/proxy/compress_body.rs:312-330 | The rest of the output goes out once and the body is done |
| `Compressor.CompressedBody.PollFrame` | src/proxy/compress_body.rs:96-114 | Terminates, keeps the tally, never reports lost state, makes progress unless it waits for the blocking pool, and reports the end once done |
| `Compressor.Drain` | src/proxy/compress_body.rs:96-330 | For every inner body and encoder: enough polls end the body, a reliable encoder never fails it, and then the joined data frames are the encoder's whole output, it consumed exactly the inner data, and the trailers and inner errors came through in order |
| `UdpBatch.Batch.Push` | src/ingress/batch.rs:61-68 | The datagram is last, its bytes are added, and the first one sets the opening time |
| `UdpBatch.Batch.Take` | src/ingress/batch.rs:101-107 | Gives all datagrams and leaves the batch empty |
| `UdpBatch.FillFlushExactly` | src/ingress/batch.rs:70-84 | A batch is due by fill exactly when it is not empty and has the number or the bytes of the caps, the number named first |
| `UdpIngress.AdmitExactly` | src/ingress/udp.rs:42-59 | A packet is admitted if and only if it is allowed, within the rate and within the size; of several reasons the access list is named first, then the rate |
| `UdpIngress.RefusalExactly` | src/ingress/udp.rs:61-80 | A queue refuses for want of a backend exactly when it is missing or its writer is gone, for backpressure exactly when it is full |
| `UdpIngress.NothingLostOrReordered` | src/ingress/udp.rs:184-263 | On every run, for every backend, batches handed off and the buffered batch are its admitted datagrams in order, and received = dropped + buffered + taken by queues |
| `UdpIngress.QueuesNeverOverflow` | src/ingress/udp.rs:61-80 | On every run every backend keeps its queue at its configured depth, and it never holds more batches |
| `UdpIngress.WriterLivesUntilItEnds` | src/ingress/udp.rs:61-80 | On every run a queue refuses for want of a writer only after its writer ended |
| `UdpIngress.WriterDrainsItsQueue` | src/ingress/udp/writer.rs:70-94 | After every run, a live writer that takes as often as its queue holds batches has had every batch the queue ever took, in order |
| `UdpIngress.EndedWriterTakesNothing` | src/ingress/udp/writer.rs:70-94 | After every run, once a writer has ended nothing that follows is taken from its queue |
| `UdpHistory.BackendGetsItsAdmissions` | src/ingress/udp.rs:42-263 | What was handed off and buffered for a backend is exactly the packets with its verdicts and a size within the caps then in force, read off the events alone; writer and queue have exactly the batches taken; each admission counter is the packets refused for its reason |
| `UdpHistory.FinalFlushLeavesNothing` | src/ingress/udp.rs:237-263 | After a flush that visits every non-empty batch nothing is buffered, and each backend's hand-offs are its admissions |
| `UdpLoop.Loop.EnqueueBatch` | src/ingress/udp.rs:61-80 | A batch goes whole to a queue that is there, has a live writer and is below its depth, or all of it is counted under the reason |
| `UdpLoop.Loop.FlushBackend` | src/ingress/udp.rs:246-263 | A non-empty batch is taken and offered to the queue; nothing else changes |
| `UdpLoop.Loop.FlushExpired` | src/ingress/udp.rs:224-235 | Flushes exactly the batches opened at least the linger ago, in some order |
| `UdpLoop.Loop.FlushAll` | src/ingress/udp.rs:237-244 | Flushes every batch there is, so every non-empty one |
| `UdpLoop.Loop.Shutdown` | src/ingress/udp.rs:125-128 | After any run the loop's own last flush leaves nothing buffered, the hand-offs of every backend are exactly its admissions, and every packet is taken by a queue or counted as dropped |
| `UdpLoop.Loop.ApplyReload` | src/ingress/udp.rs:156-182 | Caps take effect at once and nothing else changes; reports whether the linger changed |
| `UdpLoop.Loop.HandleDatagram` | src/ingress/udp.rs:184-222 | The object goes where the receive step goes: counted, dropped with a reason or batched, flushed when full |
| `UdpBounds.CounterIsTrueSum` | src/ingress/batch.rs:61-68 | On every run, through any reload, the saturating byte counter is the exact sum of the buffered payloads |
| `UdpBounds.PacketClosesExactlyFullBatch` | src/ingress/udp.rs:211-222 | On every run an admitted packet sends its backend's batch off exactly when with it the batch has the number or the payload bytes of the caps in force |
| `UdpBounds.LingerExpiredExactly` | src/ingress/batch.rs:86-93 | A batch is due for a sweep exactly when it is open and its opening is the linger or longer ago |
| `UdpBounds.HandoffsAreBounded` | src/ingress/batch.rs:70-84 | While reloads stay at or below some non-zero caps, every hand-off is within their datagram cap and within a payload bound no larger than byte cap - 1 + datagram size |
| `UdpBounds.BatchIsBoundedByItsOwnCaps` | src/ingress/udp.rs:156-222 | From any point of any run where nothing is buffered for a backend, its later hand-offs are bounded by the caps from there on, whatever they were before |
| `UdpBounds.WaitingTimeIsBounded` | src/ingress/udp.rs:224-235 | Through reloads that never set the linger above a limit, no datagram is buffered longer than the limit plus the time since the last sweep |
| `UdpFrames.MaxPayloadIsReached` | src/ingress/batch.rs:70-84 | Both bounds are tight, and together: some run hands off the full number of datagrams with exactly the largest payload |
| `UdpFrames.BatchesFitIff` | src/ingress/batch.rs:70-84 | No run hands off more payload than a ceiling if and only if the payload bound is within it |
| `UdpFrames.TooManyToFit` | src/ingress/protocol.rs:108-122 | An invertible codec that writes all batches of given payload sizes within some length leaves room for all their payloads and the free bytes of their peers |
| `UdpFrames.FramesNeedRoom` | src/ingress/batch.rs:21-23 | For every invertible codec: if every batch any run hands off can be encoded, the payload bound and 6 bytes (IPv4 socket) or 18 bytes (IPv6 socket) per datagram of a full batch are within the frame ceiling |
| `UdpFrames.FramesFitWithOverhead` | src/ingress/batch.rs:21-23 | For a codec that adds at most some overhead for the number of datagrams to the batches within the bounds of the caps, every batch can be encoded if the payload bound and the overhead of a full batch are within the ceiling |
| `UdpFrames.FramesFitIff` | src/ingress/batch.rs:21-23 | For a codec that adds exactly that overhead to them, every batch of every run can be encoded if and only if they are |
| `PlainCodec.PlainFitsIff` | src/ingress/batch.rs:21-23 | With an invertible codec of fixed-width fields, every batch of every run can be encoded if and only if the payload bound, 34 bytes per datagram of a full batch and one byte are within the ceiling |
| `UdpFrames.DefaultCapsOverflowTheFrame` | src/config/types.rs:281-314 | The default caps pass the configuration check, yet for every invertible codec and on either kind of socket some run hands off a batch that is refused as too large |
| `UdpFrames.PayloadWithinCeilingIsNotEnough` | src/config/types.rs:281-314 | Caps that pass the check and keep every payload within the ceiling, and still no invertible codec fits all their batches |
| `FsWatch.RunKeeps` | src/fs_watch.rs:34-66 | On every interleaving of fewer than 2^64 events, each event has one worker, and each check came a debounce later and reloaded exactly when no event followed |
| `FsWatch.AcceptsExactly` | src/fs_watch.rs:40-54 | A notice counts if and only if it is a modification or creation with a watched file among its paths |
| `FsWatch.EventsAreChanges` | src/fs_watch.rs:39-56 | On every run the accepted events are exactly those notices, each at its time |
| `FsWatch.ReloadsOnlyAfterQuiet` | src/fs_watch.rs:56-66 | A worker reloads exactly when no accepted event followed its own before its check |
| `FsWatch.BurstReloadsAtMostOnce` | src/fs_watch.rs:19-23 | Events closer together than the debounce cause at most one reload, that of the last |
| `FsWatch.NewestEventIsReloaded` | src/fs_watch.rs:19-23 | Once no worker sleeps, the newest event was followed by its reload, at least one debounce later |
| `FsWatch.PromptCheckFollowsQuiet` | src/fs_watch.rs:56-66 | A worker that checks on time reloads if and only if no event was accepted before its check: always after more than a debounce of quiet, never after less |
| `FsWatch.Watcher.OnNotice` | src/fs_watch.rs:39-56 | A worker is spawned exactly for a modification or creation of a watched file, with the generation of the step |
| `FsWatch.Watcher.Check` | src/fs_watch.rs:59-66 | The worker reloads exactly when the step records a reload |
| `Relay.CountsAreBytesRead` | src/proxy/relay.rs:65-91 | On every run the counts are the bytes each side gave before the end |
| `Relay.RunFollowsEvents` | src/proxy/relay.rs:51-91 | On every run the clock and the last activity are those of the events: the time of the last read or write of at least one byte before the end |
| `Relay.EndIsItsCause` | src/proxy/relay.rs:135-187 | A relay ends completed, failed or cancelled exactly with the event of that name, by timeout only at a wake-up, and then nothing changes any more |
| `Relay.EndsOnlyWhenIdle` | src/proxy/relay.rs:121-133 | The watchdog ends a relay only when the events moved no data for the idle timeout, less the sub-millisecond part of the last movement |
| `Relay.BusyRelayIsNeverEnded` | src/proxy/relay.rs:121-133 | A relay whose events leave gaps below the timeout at every wake-up is never ended by it |
| `Relay.PromptWatchdogFiresExactly` | src/proxy/relay.rs:124-133 | With prompt wake-ups it fires exactly the timeout after the millisecond data last moved in, through any re-arms, and a full timeout was idle if and only if that was on a whole millisecond |
| `Relay.QuietRelayIsEnded` | src/proxy/relay.rs:124-133 | From any point of a prompt run, without further data, it does fire, at that instant |
| `Relay.TruncationShortensTheTimeout` | src/proxy/relay.rs:51-54 | For every timeout of a millisecond or more, a run in which the relay is ended 0.999999 ms early |
| `Relay.ActivityTracker.PollRead` | src/proxy/relay.rs:65-79 | A read that moved data adds to its side's count and refreshes the clock; an empty one does neither |
| `Relay.ActivityTracker.PollWrite` | src/proxy/relay.rs:82-91 | A write that moved data refreshes the clock and counts nothing |
| `Relay.ActivityTracker.Arm` | src/proxy/relay.rs:126-128 | The deadline is the recorded activity plus the timeout |
| `Relay.ActivityTracker.AfterSleep` | src/proxy/relay.rs:128-131 | Fires exactly when no activity was recorded since it was armed |
| `TcpIngress.AccountingBalances` | src/ingress/tcp.rs:103-383 | Over every interleaving accepted = relayed + dropped + in progress, each settled connection is counted once, permits held are the live tasks and within the limit, and the gauge is the relays under way |
| `TcpIngress.DropsAreTheirEvents` | src/ingress/tcp.rs:198-383 | On every run each of the six drop counters is the number of its own events: denied, over the rate, all permits held by live tasks, no backend, open circuit, failed dial or relay |
| `TcpIngress.RelaysAreTheirEvents` | src/ingress/tcp.rs:311-322 | On every run the relay counter is the number of relays that went well |
| `TcpIngress.LoopMoves` | src/ingress/tcp.rs:342-383 | On every run the accept loop counts a connection when it takes one, admits it only if allowed and within the rate, asks for a permit, and stops on shutdown between connections, for good |
| `TcpIngress.LoopEventSpawns` | src/ingress/tcp.rs:363-376 | The loop starts a task only for the connection it holds and only with a permit left |
| `TcpIngress.OwnEventMoves` | src/ingress/tcp.rs:261-325 | Each answer takes its own connection one stage further or to its end, and no other |
| `TcpIngress.EndsOnceCounted` | src/ingress/tcp.rs:372-375 | A task ends only once its connection is counted |
| `TcpIngress.Ingress.Unaccounted` | src/ingress/tcp.rs:103-117 | After every run, accepted less relayed and the six drop counters is the number of connections in progress |
| `TcpIngress.Ingress.RecordAccepted` | src/ingress/tcp.rs:356-357 | A taken connection is counted |
| `TcpIngress.Ingress.Admit` | src/ingress/tcp.rs:358-362 | A refused connection is dropped under the access list's or the rate limiter's counter, any other goes on |
| `TcpIngress.Ingress.TryAcquire` | src/ingress/tcp.rs:363-376 | A task is spawned with a permit, or the connection is a capacity drop when there is none |
| `TcpIngress.Ingress.SelectBackend` | src/ingress/tcp.rs:267-278 | Without a backend the connection is dropped for that reason |
| `TcpIngress.Ingress.PassGate` | src/ingress/tcp.rs:280-286 | With an open circuit the connection is dropped for that reason |
| `TcpIngress.Ingress.AfterDial` | src/ingress/tcp.rs:288-307 | A failed dial is a protocol drop, a good one raises the gauge |
| `TcpIngress.Ingress.AfterRelay` | src/ingress/tcp.rs:308-309 | The gauge goes down when the relay is over |
| `TcpIngress.Ingress.CountRelay` | src/ingress/tcp.rs:311-322 | A relay that worked is counted as relayed, any other as a protocol drop |
| `TcpIngress.Ingress.ReleasePermit` | src/ingress/tcp.rs:372-375 | The permit goes back when a connection task ends |
| `Rendezvous.MultiplicationInjective` | src/balancer/rendezvous.rs:12-18 | Multiplying by the FNV prime modulo 2^64 loses nothing |
| `Rendezvous.StepInjective` | src/balancer/rendezvous.rs:12-18 | A hash step is injective in the accumulator and in the byte |
| `Rendezvous.UpdateInjective` | src/balancer/rendezvous.rs:12-18 | Folding the same bytes keeps different accumulators apart |
| `Rendezvous.KnownValue` | src/balancer/rendezvous.rs:5-18 | The fold gives the published FNV-1a value of a one-letter string |
| `Rendezvous.HashIsOneFold` | src/balancer/rendezvous.rs:20-29 | The hash of a pair is one FNV-1a fold over the family tag, the octets of the canonical address and the id |
| `Rendezvous.OneOctetApartHashApart` | src/balancer/rendezvous.rs:20-29 | Clients that differ in exactly one octet hash differently for every id |
| `Rendezvous.OneByteApartHashApart` | src/balancer/rendezvous.rs:20-29 | Ids that differ in exactly one byte hash differently for every client |
| `Rendezvous.MappedClientHashesAlike` | src/balancer/rendezvous.rs:20-29 | A client hashes alike in plain and in IPv4-mapped form |
| `Rendezvous.OneByteApartNeverTies` | src/balancer/rendezvous.rs:31-49 | Equal-weight scores of such ids never tie |
| `Balancer.SelectBackend` | src/balancer/rendezvous.rs:51-71 | The loop returns the first eligible index whose score no eligible one exceeds, and none exactly when none is eligible, a missing weight counting as one; it is the reference pick |
| `Balancer.SelectWithPressureExcluding` | src/balancer/mod.rs:66-106 | The loop returns a backend with positive scored weight that is not excluded and whose score none such exceeds, the first of its kind, or none if there is none; it is the reference pick |
| `Balancer.WinnerIsPick` | src/balancer/mod.rs:87-105 | The reference pick is exactly that winner |
| `Balancer.ScoredWeightIs` | src/balancer/mod.rs:108-125 | The weight is the configured one times the health factor without pressure, none at full pressure, in proportion between, and no less for a heavier backend |
| `Balancer.WeightFactor` | src/health/state.rs:104-128 | One when nothing fresh is known, zero when offline; else what the clamped load leaves, scaled beyond the latency threshold by its share of the latency |
| `Balancer.WeightFactorFalls` | src/health/state.rs:104-128 | More load or more latency never raises the factor |
| `Balancer.PickIsBest` | src/balancer/mod.rs:87-105 | There is a pick exactly when some backend is eligible; it is eligible and none scores higher |
| `Balancer.PickSplit` | src/balancer/mod.rs:87-105 | Selection over two stretches is the better of two selections, the earlier on a tie |
| `Balancer.ExclusionIsFiltering` | src/balancer/mod.rs:66-106 | Selecting with exclusions is selecting from the filtered pool |
| `Balancer.RemovalKeepsChoice` | src/balancer/mod.rs:66-106 | Removing a backend that was not selected never changes the choice |
| `Balancer.AdditionKeepsOrMoves` | src/balancer/mod.rs:66-106 | Adding a backend keeps the choice or moves it to the new one |
| `Balancer.RaisingWinnerKeepsIt` | src/balancer/mod.rs:66-106 | Raising only the winner's weight keeps it the winner |
| `Balancer.AttemptsListEveryBackendOnce` | src/balancer/mod.rs:66-106 | Excluding each winner in turn lists every eligible id once in non-increasing score order, and then nothing is left |
| `Balancer.UniqueIdsAreAllTried` | src/balancer/mod.rs:66-106 | With unique ids every eligible backend is itself tried |
| `Balancer.DeadBackendIsNeverSelected` | src/balancer/mod.rs:108-125 | A backend with health factor zero or full pressure is never selected |
| `Routing.MatchIsBySegments` | src/proxy/router.rs:43-49 | A prefix without trailing slash matches exactly the paths that begin with its segments, whole |
| `Routing.TrailingSlashNeedsASegment` | src/proxy/router.rs:43-49 | A prefix with trailing slash matches exactly the paths with its segments and one more |
| `Routing.NewRouter` | src/proxy/router.rs:26-40 | The same routes, longest prefix first, equal lengths in configured order |
| `Routing.MatchRoute` | src/proxy/router.rs:43-57 | The first matching route in the router's order |
| `Routing.RoutingIsLongestPrefix` | src/proxy/router.rs:26-57 | For every configuration the answer is the longest matching prefix, the first configured of its kind, and none exactly when none matches |
| `Routing.RouteOrderDoesNotMatter` | src/proxy/router.rs:26-57 | With distinct prefixes any order of the same routes answers alike on every path |
| `Routing.ValidateRoutes` | src/config/types.rs:331-357 | Accepts exactly rooted, distinct prefixes with a pool behind each, and otherwise reports the first route that breaks a rule and the first rule it breaks |
| `Routing.ValidateNoDuplicateBackendIds` | src/config/types.rs:316-329 | Accepts exactly the lists of distinct ids |
| `Routing.FilterPool` | src/config_reload.rs:28-33 | The backends of the pool in configured order |
| `Routing.MembersAreThePool` | src/config_reload.rs:28-33 | Those are exactly the backends configured for the pool, and there are some exactly when the pool exists |
| `Routing.MembersAreAllOfThem` | src/config_reload.rs:28-33 | Each of them as often as it is configured |
| `Routing.BuildBackendPools` | src/config_reload.rs:20-42 | Fails exactly when a pool is over a limit; else every route with backends has its pool, holding exactly its members |
| `Routing.RouteToPool` | src/config_reload.rs:20-42 | A configuration is rejected exactly when it is invalid or a pool is too large; on any other every match is the longest and names a non-empty pool of exactly its backends |
| `Protocol.PeerRoundTrip` | src/ingress/protocol.rs:65-87 | An address comes back canonical, and unchanged exactly when it was not IPv4-mapped |
| `Protocol.PeerFromItsAddress` | src/ingress/protocol.rs:65-87 | Every 16-byte peer comes back unchanged from its address |
| `Protocol.PeerOnTheWire` | src/ingress/protocol.rs:65-78 | An IPv4 peer is ten zero bytes, two of 255 and its four octets, an IPv6 one its sixteen octets |
| `Protocol.FrameOnTheWire` | src/ingress/protocol.rs:108-122 | A frame is the length in four bytes, most significant first, and the payload |
| `Protocol.RefusedExactly` | src/ingress/protocol.rs:130-175 | By the declared length and the bytes there are, exactly which error each byte string gives on decode and on read, and how much is taken |
| `Protocol.FrameRoundTrip` | src/ingress/protocol.rs:108-175 | A frame followed by anything reads back as its envelope, taking exactly its own bytes, and decodes to the same |
| `Protocol.StreamRoundTrip` | src/ingress/protocol.rs:153-188 | Any list of encodable envelopes written back to back reads back as that list with every byte taken and not one more |
| `Protocol.DecodeAgreesWithRead` | src/ingress/protocol.rs:130-175 | On every byte string decode and read accept alike, and an over-long length is refused before any payload is read |
| `Protocol.ReadFrame` | src/ingress/protocol.rs:153-175 | Result and bytes taken are those of the stream reading function, in every error case too |
| `Protocol.WriteFrame` | src/ingress/protocol.rs:177-188 | Writes the frame, or refuses an envelope over the ceiling and writes nothing |
| `Protocol.WritePreamble` | src/ingress/protocol.rs:24-37 | Appends the magic and the version |
| `Protocol.ReadPreamble` | src/ingress/protocol.rs:39-53 | Succeeds exactly on the magic followed by a byte, which is the version returned; too few bytes and a wrong magic are told apart |
| `Acl.FoldedRuleMeans` | src/acl.rs:12-31 | For every rule and peer, folding keeps 128-bit membership except for IPv4 peers under a short covering V6 rule |
| `Acl.PrefixIsBits` | src/acl.rs:65-72 | Two addresses share a prefix if and only if they agree on each of its bits, from the top |
| `Acl.FoldingKeepsMeaningIff` | src/acl.rs:12-31 | A rule keeps its meaning for all peers if and only if it is not a V6 rule shorter than /96 covering the mapped block |
| `Acl.CheckIsReference` | src/acl.rs:41-72 | On lists without such rules the verdict is deny first, then mandatory allow, over 128-bit sets, for every peer |
| `Acl.CheckIsReferenceIff` | src/acl.rs:41-72 | On arbitrary lists, exactly which peers get the reference verdict |
| `Acl.MappedPeerGetsBareVerdict` | src/acl.rs:47-51 | A mapped peer gets the verdict of its bare address, whatever the rules |
| `Acl.ShortV6DenyMissesIpv4` | src/acl.rs:15-22 | Denying ::/0 leaves every IPv4 peer permitted |
| `Backoff.DelayIsExact` | src/retry.rs:5-14 | The saturating, shift-checked delay is exactly min(base * 2^attempt, max) for every 32-bit attempt |
| `Backoff.BackoffDelay` | src/retry.rs:10-24 | Jitter adds less than its range and never goes below the delay |
| `Acme.FailureBackoffIsExact` | src/tls/acme.rs:457-468 | For every count from one on the floor is exactly min(300 * 2^(n-1), 21600) |
| `Acme.DueInTheLastThirtyDays` | src/tls/acme.rs:471-501 | A certificate is valid up to its end and due exactly in its last thirty days; one that cannot be parsed is neither valid nor waited for |
| `Acme.StartupExactly` | src/tls/acme.rs:147-186 | Start-up orders exactly unless the cached certificate has more than thirty days left, goes on exactly with that, an ordered one, or a cached one still valid after the failed order, and serves it |
| `Acme.ProvisionInitialCert` | src/tls/acme.rs:147-186 | The start-up code takes the start-up step: no order for a certificate that is not due, else one order, and a still valid cached certificate served if it fails |
| `Acme.RunRenewals` | src/tls/acme.rs:192-238 | The renewal loop, over any certificates, outcomes and delays, places the orders of the loop steps |
| `Acme.RunProcess` | src/startup/tls.rs:102-107 | The process places the start-up order and, unless start-up fails for good, the loop's |
| `Acme.LoopIsPaced` | src/tls/acme.rs:192-238 | In every run of the loop each order follows the one before by at least the backoff of the failures in a row before it |
| `Acme.LoopFollowsPasses` | src/tls/acme.rs:192-227 | The loop places one order per pass with that outcome and waits on the newest certificate any order brought |
| `Acme.OrdersWhenDue` | src/tls/acme.rs:229-238 | Every order comes, but for waking late, at the latest of: the backoff of the failures in a row, thirty days before the newest certificate ends, and twelve hours if there is none |
| `Acme.FourAttemptsAnHour` | src/tls/acme.rs:30-34 | In the loop, the order after four failures in a row comes more than an hour after the first of them |
| `Acme.FailedStartupIsNotSleptOff` | src/tls/acme.rs:147-238 | A failed start-up order leads into the loop only for a cached certificate that is due and still valid, and the loop's first sleep is then zero |
| `Acme.FiveNeverInAnHourIff` | src/tls/acme.rs:30-34 | Over all processes, five failing orders in a row never fall within an hour if and only if it is not the case that the cached certificate is due, still valid, and its start-up order fails |
| `Acme.SixNeverInAnHour` | src/tls/acme.rs:30-34 | In every process six failing orders in a row take more than an hour |
| `Acme.StartupFailureIsNotPaced` | src/tls/acme.rs:147-238 | For every cached certificate that is due and still valid, the process whose orders fail at once places five within an hour |

## Left out

- TLS, certificate loading, the ACME exchange, secret storage, sockets, HTTP and QUIC plumbing: foreign calls with no logic of their own to prove.
- zstd, bitcode, the lru crate, governor and tokio semaphores are known by contract only.
- The UDP writer and metrics submodules: the model stops at the backend queue, where a writer takes batches or ends.
- Interleavings inside one breaker operation: each operation is one step, so the separate atomics are never seen half updated.
- f64 rounding, NaN and the values of the logarithm; the claim that selection frequency is proportional to weight.
- Wrap-around of 64-bit byte, packet and connection counters, and saturation of elapsed milliseconds: these are unbounded here.
- A request in flight across a reload that stores its response after the flush: the cache results speak of the order of calls.
- Trailers and inner errors in the compressor: they come through in order, but where they fall among the data frames is not stated.
- Routing.NewRouter: sorts by insertion on a sequence, not in place; it captures the result and its stability, not the library's algorithm.
- Compressor.Drain: speaks of the data frames; what a body does after handing out a compression error is only that it is done.
- FsWatch.RunKeeps: assumes fewer than 2^64 accepted events, because the generation counter is that wide.
- UdpBounds.WaitingTimeIsBounded: speaks of sweeps that visit every expired batch, as the loop's do.
- UdpFrames.FramesNeedRoom: counts the free bytes of peers and payloads but not of receive times, which the senders do not choose.
- PlainCodec.PlainFitsIff: is about a codec given here; what bitcode adds to a batch is not part of this model.
- Acme.FiveNeverInAnHourIff: takes one clock for sleeping and for certificate validity, and one that does not go back.
- The rest of apply_reload: fields that need a restart are only compared for a warning.
- Registration of watched directories, and its fatal or warning set-up failures: a loop of file-system calls.
- Dialling, the Hello and Open envelopes of a TCP connection and the breaker calls around it: outcomes in the connection events.
- The other configuration validators, metrics, tracing, health endpoints, tunnels and start-up wiring: easy members or I/O.
