/** The UDP ingress receive loop (src/ingress/udp.rs): admission, per-backend batching, three flush triggers, bounded
    queues to the backend writers, and live reload of the caps.

    Verdicts that come from elsewhere (access list, rate limiter, backend selection) are part of each arrival event, so
    every statement holds for all of them. A lane gathers what concerns one backend, with a log of what the loop itself
    does not keep: the datagrams admitted and when, and every batch handed off and whether the queue took it. */
module UdpIngress {
  import opened Bytes
  import opened Protocol
  import opened UdpBatch

  type Id = Data

  datatype DropReason = Acl | RateLimit | Oversize | NoBackend | Backpressure

  /** A bounded queue to a backend writer. */
  datatype Queue = Queue(items: seq<seq<Datagram>>, depth: nat, alive: bool)

  datatype Arrival = Arrival(datagram: Datagram, at: nat)

  datatype Handoff = Handoff(batch: seq<Datagram>, taken: bool)

  /** Everything about one backend: its batch, its queue if it has a writer, and the log. */
  datatype Lane = Lane(
    batch: Content,
    queue: Option<Queue>,
    admitted: seq<Arrival>,
    handoffs: seq<Handoff>,
    written: seq<seq<Datagram>>)

  function NewLane(queue: Option<Queue>): Lane { Lane(EMPTY, queue, [], [], []) }

  datatype Caps = Caps(limits: Limits, maxDatagramBytes: U32)

  /** `dropped` holds each reason as often as its counter says. */
  datatype State = State(caps: Caps, lanes: map<Id, Lane>, received: nat, dropped: multiset<DropReason>)

  function LaneAt(s: State, id: Id): Lane { if id in s.lanes then s.lanes[id] else NewLane(None) }

  function SetLane(s: State, id: Id, l: Lane): State { s.(lanes := s.lanes[id := l]) }

  function Drop(s: State, reason: DropReason, count: nat): State {
    s.(dropped := s.dropped[reason := s.dropped[reason] + count])
  }

  datatype Packet = Packet(payload: Data, peer: Peer, recvAtUnixNanos: U64)

  /** What the access list, the rate limiter and backend selection say about a packet. */
  datatype Verdicts = Verdicts(allowed: bool, withinRate: bool, backend: Option<Id>)

  function Admit(p: Packet, v: Verdicts, caps: Caps): Option<DropReason> {
    if !v.allowed then Some(Acl)
    else if !v.withinRate then Some(RateLimit)
    else if |p.payload| > caps.maxDatagramBytes then Some(Oversize)
    else None
  }

  /** The access list speaks first, then the rate limiter, then the size cap; a packet none of them refuses is
      admitted. */
  lemma AdmitExactly(p: Packet, v: Verdicts, caps: Caps)
    ensures Admit(p, v, caps).None? <==> v.allowed && v.withinRate && |p.payload| <= caps.maxDatagramBytes
    ensures Admit(p, v, caps) == Some(Acl) <==> !v.allowed
    ensures Admit(p, v, caps) == Some(RateLimit) <==> v.allowed && !v.withinRate
    ensures Admit(p, v, caps) == Some(Oversize) <==> v.allowed && v.withinRate && |p.payload| > caps.maxDatagramBytes
  {
  }

  /** Why a queue would not take another batch now. */
  function Refusal(queue: Option<Queue>): Option<DropReason> {
    if queue.None? || !queue.value.alive then Some(NoBackend)
    else if |queue.value.items| >= queue.value.depth then Some(Backpressure)
    else None
  }

  /** A queue refuses for want of a writer when it is missing or its writer is gone, for backpressure when it is
      full. */
  lemma RefusalExactly(queue: Option<Queue>)
    ensures Refusal(queue).None? <==> queue.Some? && queue.value.alive && |queue.value.items| < queue.value.depth
    ensures Refusal(queue) == Some(NoBackend) <==> queue == None || !queue.value.alive
    ensures Refusal(queue) == Some(Backpressure)
            <==> queue.Some? && queue.value.alive && |queue.value.items| >= queue.value.depth
  {
  }

  /** Offers the whole batch to the queue without waiting. */
  function FlushLane(l: Lane): Lane {
    var ds, took := l.batch.datagrams, Refusal(l.queue).None?;
    l.(batch := EMPTY,
       handoffs := l.handoffs + [Handoff(ds, took)],
       queue := if took then Some(l.queue.value.(items := l.queue.value.items + [ds])) else l.queue)
  }

  function FlushBackend(s: State, id: Id): State {
    var l := LaneAt(s, id);
    if l.batch.datagrams == [] then s
    else
      var flushed := SetLane(s, id, FlushLane(l));
      if Refusal(l.queue).Some? then Drop(flushed, Refusal(l.queue).value, |l.batch.datagrams|) else flushed
  }

  function FlushEach(s: State, ids: seq<Id>): State {
    if ids == [] then s else FlushBackend(FlushEach(s, ids[..|ids| - 1]), ids[|ids| - 1])
  }

  function BufferIn(l: Lane, d: Datagram, now: nat): Lane {
    l.(batch := Pushed(l.batch, now, d), admitted := l.admitted + [Arrival(d, now)])
  }

  /** Batches an admitted datagram, and flushes when that fills the batch. */
  function Accept(s: State, id: Id, d: Datagram, now: nat): State {
    var l := BufferIn(LaneAt(s, id), d, now);
    var next := SetLane(s, id, l);
    if FillFlush(l.batch, s.caps.limits).Some? then FlushBackend(next, id) else next
  }

  function AsDatagram(p: Packet): Datagram { Datagram(p.peer, p.recvAtUnixNanos, p.payload) }

  /** Why a packet goes no further: refused admission, or no backend to send it to. */
  function Rejection(p: Packet, v: Verdicts, caps: Caps): Option<DropReason> {
    var refused := Admit(p, v, caps);
    if refused.Some? then refused else if v.backend.None? then Some(NoBackend) else None
  }

  function Counted(s: State): State { s.(received := s.received + 1) }

  /** One packet: counted, then dropped with a reason or batched. */
  function Receive(s: State, p: Packet, v: Verdicts, now: nat): State {
    match Rejection(p, v, s.caps)
    case Some(reason) => Drop(Counted(s), reason, 1)
    case None => Accept(Counted(s), v.backend.value, AsDatagram(p), now)
  }

  // ---- Runs ----

  /** Linger sweeps and the final flush visit the batches in some order of the hash map. */
  datatype Event =
    | Receives(p: Packet, v: Verdicts)
    | Sweep(order: seq<Id>)
    | FlushAll(order: seq<Id>)
    | Reload(entry: Option<Caps>)
    | WriterTakes(id: Id)
    | WriterEnds(id: Id)

  /** An event and when it happens. */
  datatype Timed = Timed(event: Event, at: nat)

  function WriterTake(l: Lane): Lane {
    if l.queue.Some? && l.queue.value.alive && l.queue.value.items != [] then
      var q := l.queue.value;
      l.(queue := Some(q.(items := q.items[1..])), written := l.written + [q.items[0]])
    else l
  }

  function WriterEnd(l: Lane): Lane {
    if l.queue.Some? then l.(queue := Some(l.queue.value.(alive := false))) else l
  }

  function Step(s: State, t: Timed): State {
    match t.event
    case Receives(p, v) => Receive(s, p, v, t.at)
    case Sweep(order) => FlushEach(s, order)
    case FlushAll(order) => FlushEach(s, order)
    case Reload(entry) => if entry.Some? then s.(caps := entry.value) else s
    case WriterTakes(id) => SetLane(s, id, WriterTake(LaneAt(s, id)))
    case WriterEnds(id) => SetLane(s, id, WriterEnd(LaneAt(s, id)))
  }

  function Start(caps: Caps, depths: map<Id, nat>): State {
    State(caps, map id | id in depths :: NewLane(Some(Queue([], depths[id], true))), 0, multiset{})
  }

  function Run(start: State, h: seq<Timed>): State {
    if h == [] then start else Step(Run(start, h[..|h| - 1]), h[|h| - 1])
  }

  // ---- Order and conservation ----

  function Datagrams(arrivals: seq<Arrival>): seq<Datagram> {
    if arrivals == [] then []
    else Datagrams(arrivals[..|arrivals| - 1]) + [arrivals[|arrivals| - 1].datagram]
  }

  /** The datagrams of every handoff, taken or not. */
  function Handed(hs: seq<Handoff>): seq<Datagram> {
    if hs == [] then [] else Handed(hs[..|hs| - 1]) + hs[|hs| - 1].batch
  }

  /** The batches the queue took, in order. */
  function Taken(hs: seq<Handoff>): seq<seq<Datagram>> {
    if hs == [] then []
    else Taken(hs[..|hs| - 1]) + if hs[|hs| - 1].taken then [hs[|hs| - 1].batch] else []
  }

  /** A backend's handed-off batches followed by its buffered batch are the datagrams admitted for it, in arrival
      order: nothing lost, duplicated or reordered but for the whole batches its queue refused. The queue holds the
      batches it took and the writer has not taken yet. */
  ghost predicate InOrder(l: Lane) {
    && Handed(l.handoffs) + l.batch.datagrams == Datagrams(l.admitted)
    && (l.queue.Some? ==> l.written + l.queue.value.items == Taken(l.handoffs))
    && (l.queue.None? ==> l.written == Taken(l.handoffs) == [])
  }

  /** Datagrams of a backend that are buffered or in a batch its queue took. */
  ghost function Held(l: Lane): nat { |l.batch.datagrams| + |Concat(Taken(l.handoffs))| }

  ghost function Holdings(lanes: map<Id, Lane>): map<Id, nat> { map id | id in lanes :: Held(lanes[id]) }

  ghost function HeldTotal(lanes: map<Id, Lane>): nat { Total(Holdings(lanes)) }

  /** Every received datagram is dropped and counted once, or buffered, or in a batch some queue took. */
  ghost predicate Conserved(s: State) { s.received == |s.dropped| + HeldTotal(s.lanes) }

  lemma HandedPush(hs: seq<Handoff>, h: Handoff)
    ensures Handed(hs + [h]) == Handed(hs) + h.batch
    ensures Taken(hs + [h]) == Taken(hs) + if h.taken then [h.batch] else []
  {
    assert (hs + [h])[..|hs|] == hs;
  }

  lemma FlushLaneKeeps(l: Lane)
    requires InOrder(l)
    ensures InOrder(FlushLane(l))
    ensures Held(FlushLane(l)) == Held(l) - if Refusal(l.queue).Some? then |l.batch.datagrams| else 0
  {
    var ds := l.batch.datagrams;
    HandedPush(l.handoffs, Handoff(ds, Refusal(l.queue).None?));
    ConcatOne(Taken(l.handoffs), ds);
    assert Handed(l.handoffs) + ds + [] == Handed(l.handoffs) + ds;
    if l.queue.Some? {
      assert l.written + (l.queue.value.items + [ds]) == l.written + l.queue.value.items + [ds];
    }
  }

  lemma BufferInKeeps(l: Lane, d: Datagram, now: nat)
    requires InOrder(l)
    ensures InOrder(BufferIn(l, d, now))
    ensures Held(BufferIn(l, d, now)) == Held(l) + 1
  {
    assert (l.admitted + [Arrival(d, now)])[..|l.admitted|] == l.admitted;
    assert Handed(l.handoffs) + (l.batch.datagrams + [d]) == Handed(l.handoffs) + l.batch.datagrams + [d];
  }

  lemma WriterKeeps(l: Lane)
    requires InOrder(l)
    ensures InOrder(WriterTake(l)) && Held(WriterTake(l)) == Held(l)
    ensures InOrder(WriterEnd(l)) && Held(WriterEnd(l)) == Held(l)
  {
    if l.queue.Some? && l.queue.value.items != [] {
      var items := l.queue.value.items;
      assert l.written + [items[0]] + items[1..] == l.written + items;
    }
  }

  /** All lanes in order. */
  ghost predicate AllInOrder(lanes: map<Id, Lane>) { forall id :: id in lanes ==> InOrder(lanes[id]) }

  lemma HoldingsUpdate(lanes: map<Id, Lane>, id: Id, l: Lane)
    ensures Holdings(lanes[id := l]) == Holdings(lanes)[id := Held(l)]
  {
  }

  lemma HeldNew(queue: Option<Queue>)
    ensures Held(NewLane(queue)) == 0
  {
  }

  lemma SetLaneKeeps(s: State, id: Id, l: Lane)
    requires AllInOrder(s.lanes) && InOrder(l)
    ensures AllInOrder(SetLane(s, id, l).lanes)
    ensures HeldTotal(SetLane(s, id, l).lanes) == HeldTotal(s.lanes) - Held(LaneAt(s, id)) + Held(l)
  {
    HoldingsUpdate(s.lanes, id, l);
    TotalUpdate(Holdings(s.lanes), id, Held(l));
    HeldNew(None);
  }

  lemma FlushKeeps(s: State, id: Id)
    requires AllInOrder(s.lanes)
    ensures AllInOrder(FlushBackend(s, id).lanes)
    ensures Conserved(s) ==> Conserved(FlushBackend(s, id))
  {
    var l := LaneAt(s, id);
    assert InOrder(l);
    if l.batch.datagrams != [] {
      FlushLaneKeeps(l);
      SetLaneKeeps(s, id, FlushLane(l));
    }
  }

  lemma {:induction false} FlushEachKeeps(s: State, ids: seq<Id>)
    requires AllInOrder(s.lanes)
    ensures AllInOrder(FlushEach(s, ids).lanes)
    ensures Conserved(s) ==> Conserved(FlushEach(s, ids))
  {
    if ids == [] {
    } else {
      FlushEachKeeps(s, ids[..|ids| - 1]);
      FlushKeeps(FlushEach(s, ids[..|ids| - 1]), ids[|ids| - 1]);
    }
  }

  /** One more received datagram, admitted to a lane. */
  lemma AcceptKeeps(s: State, id: Id, d: Datagram, now: nat)
    requires AllInOrder(s.lanes) && Conserved(s)
    ensures AllInOrder(Accept(Counted(s), id, d, now).lanes) && Conserved(Accept(Counted(s), id, d, now))
  {
    var l := LaneAt(s, id);
    assert InOrder(l);
    BufferInKeeps(l, d, now);
    SetLaneKeeps(Counted(s), id, BufferIn(l, d, now));
    FlushKeeps(SetLane(Counted(s), id, BufferIn(l, d, now)), id);
  }

  /** One more received datagram, dropped. */
  lemma DropKeeps(s: State, reason: DropReason)
    requires AllInOrder(s.lanes) && Conserved(s)
    ensures AllInOrder(Drop(Counted(s), reason, 1).lanes) && Conserved(Drop(Counted(s), reason, 1))
  {
  }

  lemma ReceiveKeeps(s: State, p: Packet, v: Verdicts, now: nat)
    requires AllInOrder(s.lanes) && Conserved(s)
    ensures AllInOrder(Receive(s, p, v, now).lanes) && Conserved(Receive(s, p, v, now))
  {
    match Rejection(p, v, s.caps)
    case Some(reason) => DropKeeps(s, reason);
    case None => AcceptKeeps(s, v.backend.value, AsDatagram(p), now);
  }

  lemma StepKeeps(s: State, t: Timed)
    requires AllInOrder(s.lanes) && Conserved(s)
    ensures AllInOrder(Step(s, t).lanes) && Conserved(Step(s, t))
  {
    match t.event
    case Receives(p, v) => ReceiveKeeps(s, p, v, t.at);
    case Sweep(order) => FlushEachKeeps(s, order);
    case FlushAll(order) => FlushEachKeeps(s, order);
    case Reload(_) =>
    case WriterTakes(id) => WriterStepKeeps(s, id);
    case WriterEnds(id) => WriterStepKeeps(s, id);
  }

  lemma WriterStepKeeps(s: State, id: Id)
    requires AllInOrder(s.lanes) && Conserved(s)
    ensures var r := SetLane(s, id, WriterTake(LaneAt(s, id)));
            AllInOrder(r.lanes) && Conserved(r)
    ensures var r := SetLane(s, id, WriterEnd(LaneAt(s, id)));
            AllInOrder(r.lanes) && Conserved(r)
  {
    var l := LaneAt(s, id);
    assert InOrder(l);
    WriterKeeps(l);
    SetLaneKeeps(s, id, WriterTake(l));
    SetLaneKeeps(s, id, WriterEnd(l));
  }

  lemma {:induction false} TotalOfZeros<K>(m: map<K, nat>)
    requires forall k :: k in m ==> m[k] == 0
    ensures Total(m) == 0
    decreases |m|
  {
    if m == map[] {
    } else {
      var k :| k in m && Total(m) == m[k] + Total(m - {k});
      TotalOfZeros(m - {k});
    }
  }

  /** Over every interleaving of arrivals, sweeps, reloads, writer steps and flushes, for every backend. */
  lemma {:induction false} NothingLostOrReordered(caps: Caps, depths: map<Id, nat>, h: seq<Timed>)
    ensures AllInOrder(Run(Start(caps, depths), h).lanes)
    ensures Conserved(Run(Start(caps, depths), h))
  {
    if h == [] {
      var s := Start(caps, depths);
      TotalOfZeros(Holdings(s.lanes));
    } else {
      NothingLostOrReordered(caps, depths, h[..|h| - 1]);
      StepKeeps(Run(Start(caps, depths), h[..|h| - 1]), h[|h| - 1]);
    }
  }

  // ---- The queues ----

  /** A backend that was given a queue keeps it, at its depth and never holding more batches; no other backend has
      one. */
  ghost predicate QueueWithin(depths: map<Id, nat>, id: Id, l: Lane) {
    if id in depths then l.queue.Some? && l.queue.value.depth == depths[id] && |l.queue.value.items| <= depths[id]
    else l.queue == None
  }

  lemma FlushKeepsQueue(depths: map<Id, nat>, s: State, at: Id, id: Id)
    requires QueueWithin(depths, id, LaneAt(s, id))
    ensures QueueWithin(depths, id, LaneAt(FlushBackend(s, at), id))
  {
  }

  lemma {:induction false} FlushEachKeepsQueue(depths: map<Id, nat>, s: State, ids: seq<Id>, id: Id)
    requires QueueWithin(depths, id, LaneAt(s, id))
    ensures QueueWithin(depths, id, LaneAt(FlushEach(s, ids), id))
  {
    if ids == [] {
    } else {
      FlushEachKeepsQueue(depths, s, ids[..|ids| - 1], id);
      FlushKeepsQueue(depths, FlushEach(s, ids[..|ids| - 1]), ids[|ids| - 1], id);
    }
  }

  lemma ReceiveKeepsQueue(depths: map<Id, nat>, s: State, p: Packet, v: Verdicts, now: nat, id: Id)
    requires QueueWithin(depths, id, LaneAt(s, id))
    ensures QueueWithin(depths, id, LaneAt(Receive(s, p, v, now), id))
  {
    if Rejection(p, v, s.caps).None? {
      var to := v.backend.value;
      FlushKeepsQueue(depths, SetLane(Counted(s), to, BufferIn(LaneAt(s, to), AsDatagram(p), now)), to, id);
    }
  }

  ghost predicate SameWriter(l: Lane, r: Lane) {
    && r.written == l.written
    && (l.queue.Some? ==> r.queue.Some? && r.queue.value.alive == l.queue.value.alive)
  }

  lemma FlushKeepsWriter(s: State, at: Id, id: Id)
    ensures SameWriter(LaneAt(s, id), LaneAt(FlushBackend(s, at), id))
  {
  }

  lemma {:induction false} FlushEachKeepsWriter(s: State, ids: seq<Id>, id: Id)
    ensures SameWriter(LaneAt(s, id), LaneAt(FlushEach(s, ids), id))
  {
    if ids == [] {
    } else {
      FlushEachKeepsWriter(s, ids[..|ids| - 1], id);
      FlushKeepsWriter(FlushEach(s, ids[..|ids| - 1]), ids[|ids| - 1], id);
    }
  }

  lemma ReceiveKeepsWriter(s: State, p: Packet, v: Verdicts, now: nat, id: Id)
    ensures SameWriter(LaneAt(s, id), LaneAt(Receive(s, p, v, now), id))
  {
    match Rejection(p, v, s.caps)
    case Some(_) =>
    case None =>
      var to, d := v.backend.value, AsDatagram(p);
      FlushKeepsWriter(SetLane(Counted(s), to, BufferIn(LaneAt(s, to), d, now)), to, id);
  }

  ghost predicate WriterEnded(h: seq<Timed>, id: Id) {
    h != [] && (h[|h| - 1].event == WriterEnds(id) || WriterEnded(h[..|h| - 1], id))
  }

  /** The writer of a backend is there until it ends. */
  lemma {:induction false} WriterLivesUntilItEnds(caps: Caps, depths: map<Id, nat>, h: seq<Timed>, id: Id)
    requires id in depths
    ensures var q := LaneAt(Run(Start(caps, depths), h), id).queue;
            q.Some? && (q.value.alive <==> !WriterEnded(h, id))
  {
    if h == [] {
    } else {
      var s, t := Run(Start(caps, depths), h[..|h| - 1]), h[|h| - 1];
      WriterLivesUntilItEnds(caps, depths, h[..|h| - 1], id);
      match t.event
      case Receives(p, v) => ReceiveKeepsWriter(s, p, v, t.at, id);
      case Sweep(order) => FlushEachKeepsWriter(s, order, id);
      case FlushAll(order) => FlushEachKeepsWriter(s, order, id);
      case _ =>
    }
  }

  lemma DeadWriterStays(s: State, t: Timed, id: Id)
    requires LaneAt(s, id).queue.Some? && !LaneAt(s, id).queue.value.alive
    ensures SameWriter(LaneAt(s, id), LaneAt(Step(s, t), id))
  {
    match t.event
    case Receives(p, v) => ReceiveKeepsWriter(s, p, v, t.at, id);
    case Sweep(order) => FlushEachKeepsWriter(s, order, id);
    case FlushAll(order) => FlushEachKeepsWriter(s, order, id);
    case Reload(_) =>
    case WriterTakes(_) =>
    case WriterEnds(_) =>
  }

  lemma {:induction false} DeadWriterTakesNothing(s: State, more: seq<Timed>, id: Id)
    requires LaneAt(s, id).queue.Some? && !LaneAt(s, id).queue.value.alive
    ensures SameWriter(LaneAt(s, id), LaneAt(Run(s, more), id))
  {
    if more == [] {
    } else {
      DeadWriterTakesNothing(s, more[..|more| - 1], id);
      DeadWriterStays(Run(s, more[..|more| - 1]), more[|more| - 1], id);
    }
  }

  /** Once the writer of a backend has ended nothing more is taken from its queue. */
  lemma EndedWriterTakesNothing(caps: Caps, depths: map<Id, nat>, h: seq<Timed>, more: seq<Timed>, id: Id)
    requires id in depths && WriterEnded(h, id)
    ensures var s := Run(Start(caps, depths), h);
            LaneAt(Run(s, more), id).written == LaneAt(s, id).written
  {
    WriterLivesUntilItEnds(caps, depths, h, id);
    DeadWriterTakesNothing(Run(Start(caps, depths), h), more, id);
  }

  function Takes(id: Id, at: nat, n: nat): seq<Timed> {
    if n == 0 then [] else Takes(id, at, n - 1) + [Timed(WriterTakes(id), at)]
  }

  lemma OneMoreTaken<T>(written: seq<T>, items: seq<T>, n: nat)
    requires 0 < n <= |items|
    ensures items[n - 1..][1..] == items[n..] && items[n - 1..][0] == items[n - 1]
    ensures written + items[..n - 1] + [items[n - 1]] == written + items[..n]
  {
  }

  /** Each take of a live writer moves the oldest batch of the queue. */
  lemma {:induction false} WriterTakesOldest(s: State, id: Id, at: nat, n: nat)
    requires LaneAt(s, id).queue.Some? && LaneAt(s, id).queue.value.alive
    requires n <= |LaneAt(s, id).queue.value.items|
    ensures var l, items := LaneAt(s, id), LaneAt(s, id).queue.value.items;
            LaneAt(Run(s, Takes(id, at, n)), id)
            == l.(queue := Some(l.queue.value.(items := items[n..])), written := l.written + items[..n])
  {
    var l, items := LaneAt(s, id), LaneAt(s, id).queue.value.items;
    if n == 0 {
      assert items[0..] == items && l.written + items[..0] == l.written;
    } else {
      var h := Takes(id, at, n - 1);
      WriterTakesOldest(s, id, at, n - 1);
      assert (h + [Timed(WriterTakes(id), at)])[..|h|] == h;
      OneMoreTaken(l.written, items, n);
    }
  }

  /** A live writer that takes as often as its queue holds batches has had every batch the queue ever took, in order. */
  lemma WriterDrainsItsQueue(caps: Caps, depths: map<Id, nat>, h: seq<Timed>, id: Id, at: nat)
    requires id in depths && !WriterEnded(h, id)
    ensures var s := Run(Start(caps, depths), h);
            var queue := LaneAt(s, id).queue;
            queue.Some? &&
            var r := LaneAt(Run(s, Takes(id, at, |queue.value.items|)), id);
            r.written == Taken(r.handoffs) == Taken(LaneAt(s, id).handoffs)
  {
    var s := Run(Start(caps, depths), h);
    WriterLivesUntilItEnds(caps, depths, h, id);
    NothingLostOrReordered(caps, depths, h);
    var items := LaneAt(s, id).queue.value.items;
    WriterTakesOldest(s, id, at, |items|);
    assert items[..|items|] == items;
  }

  /** On every run no queue grows beyond its depth, whatever its writer does. */
  lemma {:induction false} QueuesNeverOverflow(caps: Caps, depths: map<Id, nat>, h: seq<Timed>, id: Id)
    ensures QueueWithin(depths, id, LaneAt(Run(Start(caps, depths), h), id))
  {
    if h == [] {
    } else {
      var s, t := Run(Start(caps, depths), h[..|h| - 1]), h[|h| - 1];
      QueuesNeverOverflow(caps, depths, h[..|h| - 1], id);
      match t.event
      case Receives(p, v) => ReceiveKeepsQueue(depths, s, p, v, t.at, id);
      case Sweep(order) => FlushEachKeepsQueue(depths, s, order, id);
      case FlushAll(order) => FlushEachKeepsQueue(depths, s, order, id);
      case _ =>
    }
  }
}
