/** How large the batches of the UDP ingress get and how long a datagram waits in one. */
module UdpBounds {
  import opened Bytes
  import opened Protocol
  import opened UdpBatch
  import opened UdpIngress

  /** The largest payload a batch can be handed off with: one datagram past the last point where it was still open. */
  function MaxPayload(caps: Caps): int {
    var filling := (caps.limits.maxDatagrams - 1) * caps.maxDatagramBytes;
    (if filling < caps.limits.maxBytes - 1 then filling else caps.limits.maxBytes - 1) + caps.maxDatagramBytes
  }

  // ---- The byte counter ----

  /** The counter is the true sum, and the opening time is set exactly while there is something in the batch. */
  ghost predicate TrueCount(b: Content) {
    b.payloadBytes == Payload(b.datagrams) < U32_SIZE && (b.openedAt.Some? <==> b.datagrams != [])
  }

  ghost predicate AllTrue(s: State) { forall id :: id in s.lanes ==> TrueCount(s.lanes[id].batch) }

  ghost predicate IsAccepted(s: State, p: Packet, v: Verdicts) { Rejection(p, v, s.caps).None? }

  /** The lane of the packet's backend after it: one more datagram, and perhaps a flush. */
  function After(l: Lane, d: Datagram, now: nat, limits: Limits): Lane {
    var next := BufferIn(l, d, now);
    if FillFlush(next.batch, limits).Some? then FlushLane(next) else next
  }

  /** A packet changes at most the lane of its backend. */
  lemma ReceiveChanges(s: State, p: Packet, v: Verdicts, now: nat)
    ensures Receive(s, p, v, now).caps == s.caps
    ensures !IsAccepted(s, p, v) ==> Receive(s, p, v, now).lanes == s.lanes
    ensures IsAccepted(s, p, v) ==>
              Receive(s, p, v, now).lanes
              == s.lanes[v.backend.value := After(LaneAt(s, v.backend.value), AsDatagram(p), now, s.caps.limits)]
  {
    if IsAccepted(s, p, v) {
      var id := v.backend.value;
      var l := BufferIn(LaneAt(s, id), AsDatagram(p), now);
      assert s.lanes[id := l][id := FlushLane(l)] == s.lanes[id := FlushLane(l)];
    }
  }

  lemma {:induction false} FlushEachTrue(s: State, ids: seq<Id>)
    requires AllTrue(s)
    ensures AllTrue(FlushEach(s, ids))
  {
    if ids == [] {
    } else {
      FlushEachTrue(s, ids[..|ids| - 1]);
    }
  }

  lemma AfterTrue(l: Lane, d: Datagram, now: nat, limits: Limits)
    requires TrueCount(l.batch) && |d.payload| < U32_SIZE
    ensures TrueCount(After(l, d, now, limits).batch)
  {
    PayloadPush(l.batch.datagrams, d);
  }

  lemma ReceiveTrue(s: State, p: Packet, v: Verdicts, now: nat)
    requires AllTrue(s)
    ensures AllTrue(Receive(s, p, v, now))
  {
    ReceiveChanges(s, p, v, now);
    if IsAccepted(s, p, v) {
      var l := LaneAt(s, v.backend.value);
      assert TrueCount(l.batch);
      AfterTrue(l, AsDatagram(p), now, s.caps.limits);
    }
  }

  /** Through any run and any reloads the saturating byte counter is the exact sum of the buffered payloads. */
  lemma {:induction false} CounterIsTrueSum(caps: Caps, depths: map<Id, nat>, h: seq<Timed>)
    ensures AllTrue(Run(Start(caps, depths), h))
  {
    if h == [] {
    } else {
      var s, t := Run(Start(caps, depths), h[..|h| - 1]), h[|h| - 1];
      CounterIsTrueSum(caps, depths, h[..|h| - 1]);
      match t.event
      case Receives(p, v) => ReceiveTrue(s, p, v, t.at);
      case Sweep(order) => FlushEachTrue(s, order);
      case FlushAll(order) => FlushEachTrue(s, order);
      case _ =>
    }
  }

  // ---- Batch size ----

  /** No cap of the first is larger than that of the second. */
  predicate AtMost(caps: Caps, bound: Caps) {
    && caps.limits.maxDatagrams <= bound.limits.maxDatagrams
    && caps.limits.maxBytes <= bound.limits.maxBytes
    && caps.maxDatagramBytes <= bound.maxDatagramBytes
  }

  predicate NonZero(caps: Caps) { caps.limits.maxDatagrams > 0 && caps.limits.maxBytes > 0 }

  /** No reload goes above the bound. */
  ghost predicate ReloadsAtMost(h: seq<Timed>, bound: Caps) {
    forall i :: 0 <= i < |h| && h[i].event.Reload? && h[i].event.entry.Some? ==> AtMost(h[i].event.entry.value, bound)
  }

  ghost predicate Small(caps: Caps, ds: seq<Datagram>) {
    forall i :: 0 <= i < |ds| ==> |ds[i].payload| <= caps.maxDatagramBytes
  }

  /** A batch that is still open is under both caps. */
  ghost predicate StillOpen(caps: Caps, ds: seq<Datagram>) {
    Small(caps, ds) && |ds| < caps.limits.maxDatagrams && Payload(ds) < caps.limits.maxBytes
  }

  ghost predicate WithinBounds(caps: Caps, ds: seq<Datagram>) {
    |ds| <= caps.limits.maxDatagrams && Payload(ds) <= MaxPayload(caps)
  }

  /** The batch is open, and all hand-offs but the first `since` are within the bounds. */
  ghost predicate LaneWithin(bound: Caps, l: Lane, since: nat) {
    && TrueCount(l.batch)
    && StillOpen(bound, l.batch.datagrams)
    && forall i :: since <= i < |l.handoffs| ==> WithinBounds(bound, l.handoffs[i].batch)
  }

  lemma {:induction false} PayloadAtMost(ds: seq<Datagram>, m: nat)
    requires forall i :: 0 <= i < |ds| ==> |ds[i].payload| <= m
    ensures Payload(ds) <= |ds| * m
  {
    if ds == [] {
    } else {
      PayloadAtMost(ds[..|ds| - 1], m);
      assert |ds| * m == (|ds| - 1) * m + m;
    }
  }

  lemma MulMonotone(a: int, b: int, m: nat)
    requires a <= b
    ensures a * m <= b * m
  {
  }

  lemma OneMore(caps: Caps, ds: seq<Datagram>, d: Datagram)
    requires StillOpen(caps, ds) && |d.payload| <= caps.maxDatagramBytes
    ensures WithinBounds(caps, ds + [d]) && Small(caps, ds + [d])
  {
    PayloadPush(ds, d);
    PayloadAtMost(ds, caps.maxDatagramBytes);
    MulMonotone(|ds|, caps.limits.maxDatagrams - 1, caps.maxDatagramBytes);
  }

  lemma OpenIsWithin(caps: Caps, ds: seq<Datagram>)
    requires StillOpen(caps, ds)
    ensures WithinBounds(caps, ds)
  {
    PayloadAtMost(ds, caps.maxDatagramBytes);
    MulMonotone(|ds|, caps.limits.maxDatagrams - 1, caps.maxDatagramBytes);
  }

  lemma FlushLaneWithin(bound: Caps, l: Lane, since: nat)
    requires NonZero(bound) && WithinBounds(bound, l.batch.datagrams)
    requires forall i :: since <= i < |l.handoffs| ==> WithinBounds(bound, l.handoffs[i].batch)
    ensures LaneWithin(bound, FlushLane(l), since)
  {
  }

  lemma FlushWithin(bound: Caps, s: State, at: Id, id: Id, since: nat)
    requires NonZero(bound) && LaneWithin(bound, LaneAt(s, id), since)
    ensures FlushBackend(s, at).caps == s.caps && LaneWithin(bound, LaneAt(FlushBackend(s, at), id), since)
  {
    if at == id {
      OpenIsWithin(bound, LaneAt(s, id).batch.datagrams);
      FlushLaneWithin(bound, LaneAt(s, id), since);
    }
  }

  lemma {:induction false} FlushEachWithin(bound: Caps, s: State, ids: seq<Id>, id: Id, since: nat)
    requires NonZero(bound) && LaneWithin(bound, LaneAt(s, id), since)
    ensures FlushEach(s, ids).caps == s.caps && LaneWithin(bound, LaneAt(FlushEach(s, ids), id), since)
  {
    if ids == [] {
    } else {
      FlushEachWithin(bound, s, ids[..|ids| - 1], id, since);
      FlushWithin(bound, FlushEach(s, ids[..|ids| - 1]), ids[|ids| - 1], id, since);
    }
  }

  lemma AfterWithin(bound: Caps, l: Lane, d: Datagram, now: nat, caps: Caps, since: nat)
    requires NonZero(bound) && AtMost(caps, bound) && LaneWithin(bound, l, since)
    requires |d.payload| <= caps.maxDatagramBytes
    ensures LaneWithin(bound, After(l, d, now, caps.limits), since)
  {
    var next := BufferIn(l, d, now);
    OneMore(bound, l.batch.datagrams, d);
    if FillFlush(next.batch, caps.limits).Some? {
      FlushLaneWithin(bound, next, since);
    } else {
      AfterTrue(l, d, now, caps.limits);
    }
  }

  lemma ReceiveWithin(bound: Caps, s: State, p: Packet, v: Verdicts, now: nat, id: Id, since: nat)
    requires NonZero(bound) && AtMost(s.caps, bound) && LaneWithin(bound, LaneAt(s, id), since)
    ensures LaneWithin(bound, LaneAt(Receive(s, p, v, now), id), since)
  {
    ReceiveChanges(s, p, v, now);
    if IsAccepted(s, p, v) && v.backend.value == id {
      AfterWithin(bound, LaneAt(s, id), AsDatagram(p), now, s.caps, since);
    }
  }

  /** Through any events under the bound, from any state. */
  lemma {:induction false} RunWithin(bound: Caps, s: State, h: seq<Timed>, id: Id, since: nat)
    requires NonZero(bound) && AtMost(s.caps, bound) && ReloadsAtMost(h, bound)
    requires LaneWithin(bound, LaneAt(s, id), since)
    ensures AtMost(Run(s, h).caps, bound) && LaneWithin(bound, LaneAt(Run(s, h), id), since)
  {
    if h == [] {
    } else {
      var before, t := Run(s, h[..|h| - 1]), h[|h| - 1];
      RunWithin(bound, s, h[..|h| - 1], id, since);
      match t.event
      case Receives(p, v) =>
        ReceiveChanges(before, p, v, t.at);
        ReceiveWithin(bound, before, p, v, t.at, id, since);
      case Sweep(order) => FlushEachWithin(bound, before, order, id, since);
      case FlushAll(order) => FlushEachWithin(bound, before, order, id, since);
      case _ =>
    }
  }

  /** While no cap goes above the non-zero caps of a bound, every batch handed off, taken or refused, has at most
      `maxDatagrams` datagrams and at most `MaxPayload` bytes, which is never more than `maxBytes - 1 +
      maxDatagramBytes`. */
  lemma HandoffsAreBounded(bound: Caps, caps: Caps, depths: map<Id, nat>, h: seq<Timed>, id: Id, out: Handoff)
    requires NonZero(bound) && AtMost(caps, bound) && ReloadsAtMost(h, bound)
    requires out in LaneAt(Run(Start(caps, depths), h), id).handoffs
    ensures WithinBounds(bound, out.batch)
    ensures MaxPayload(bound) <= bound.limits.maxBytes - 1 + bound.maxDatagramBytes
  {
    RunWithin(bound, Start(caps, depths), h, id, 0);
  }

  lemma {:induction false} RunSplit(s: State, g: seq<Timed>, h: seq<Timed>)
    ensures Run(s, g + h) == Run(Run(s, g), h)
  {
    if h == [] {
      assert g + h == g;
    } else {
      RunSplit(s, g, h[..|h| - 1]);
      assert (g + h)[..|g + h| - 1] == g + h[..|h| - 1] && (g + h)[|g + h| - 1] == h[|h| - 1];
    }
  }

  /** Only the caps in force while a batch is open matter to it: from any point of any run where nothing is buffered
      for a backend, its later hand-offs are bounded by the caps from there on, whatever they were before. */
  lemma BatchIsBoundedByItsOwnCaps(bound: Caps, caps: Caps, depths: map<Id, nat>, g: seq<Timed>, h: seq<Timed>,
                                   id: Id, i: nat)
    requires var s := Run(Start(caps, depths), g);
             && LaneAt(s, id).batch.datagrams == [] && AtMost(s.caps, bound)
             && |LaneAt(s, id).handoffs| <= i < |LaneAt(Run(Start(caps, depths), g + h), id).handoffs|
    requires NonZero(bound) && ReloadsAtMost(h, bound)
    ensures WithinBounds(bound, LaneAt(Run(Start(caps, depths), g + h), id).handoffs[i].batch)
  {
    var s := Run(Start(caps, depths), g);
    CounterIsTrueSum(caps, depths, g);
    assert TrueCount(LaneAt(s, id).batch);
    RunSplit(Start(caps, depths), g, h);
    RunWithin(bound, s, h, id, |LaneAt(s, id).handoffs|);
  }

  /** On every run, an admitted packet sends its backend's batch off exactly when, with it, the batch has reached the
      number or the bytes of the caps in force. */
  lemma PacketClosesExactlyFullBatch(caps: Caps, depths: map<Id, nat>, h: seq<Timed>, p: Packet, v: Verdicts, now: nat)
    requires IsAccepted(Run(Start(caps, depths), h), p, v)
    ensures var s := Run(Start(caps, depths), h);
            var l, after := LaneAt(s, v.backend.value), LaneAt(Receive(s, p, v, now), v.backend.value);
            var full := |l.batch.datagrams| + 1 >= s.caps.limits.maxDatagrams
                        || Payload(l.batch.datagrams) + |p.payload| >= s.caps.limits.maxBytes;
            && |after.handoffs| == |l.handoffs| + (if full then 1 else 0)
            && after.batch.datagrams == if full then [] else l.batch.datagrams + [AsDatagram(p)]
  {
    var s := Run(Start(caps, depths), h);
    var l := LaneAt(s, v.backend.value);
    CounterIsTrueSum(caps, depths, h);
    assert TrueCount(l.batch);
    ReceiveChanges(s, p, v, now);
    FillFlushExactly(BufferIn(l, AsDatagram(p), now).batch, s.caps.limits);
  }

  // ---- Waiting time ----

  /** No reload sets a longer linger; they may change any other cap. */
  ghost predicate LingerAtMost(limit: nat, h: seq<Timed>) {
    forall i :: 0 <= i < |h| && h[i].event.Reload? && h[i].event.entry.Some? ==>
                  h[i].event.entry.value.limits.linger <= limit
  }

  /** When batches were last swept for expired linger. */
  function LastSweep(h: seq<Timed>): nat {
    if h == [] then 0 else if h[|h| - 1].event.Sweep? then h[|h| - 1].at else LastSweep(h[..|h| - 1])
  }

  predicate Lingered(b: Content, linger: nat, now: nat) {
    b.openedAt.Some? && (linger == 0 || b.openedAt.value + linger <= now)
  }

  /** The sweep's test. */
  lemma LingerExpiredExactly(b: Content, limits: Limits, now: nat)
    ensures LingerExpired(b, limits, now) <==> Lingered(b, limits.linger, now)
  {
  }

  function Due(s: State, now: nat): set<Id> {
    set id | id in s.lanes && Lingered(s.lanes[id].batch, s.caps.limits.linger, now)
  }

  /** Time does not go back, and each sweep visits every batch whose linger has expired. */
  ghost predicate Orderly(start: State, h: seq<Timed>, now: nat) {
    h == [] ||
    var t, before := h[|h| - 1], h[..|h| - 1];
    && t.at <= now
    && Orderly(start, before, t.at)
    && (t.event.Sweep? ==> forall id :: id in Due(Run(start, before), t.at) ==> id in t.event.order)
  }

  /** Every buffered datagram arrived no earlier than the batch opened, and at the last sweep the batch had not yet
      lingered long enough to go. */
  ghost predicate Waiting(l: Lane, linger: nat, sweep: nat, clock: nat) {
    && |l.batch.datagrams| <= |l.admitted|
    && (l.batch.datagrams != [] <==> l.batch.openedAt.Some?)
    && (l.batch.openedAt.Some? ==>
          && (forall i :: |l.admitted| - |l.batch.datagrams| <= i < |l.admitted| ==>
                l.batch.openedAt.value <= l.admitted[i].at)
          && l.batch.openedAt.value <= clock
          && (sweep <= l.batch.openedAt.value || sweep - l.batch.openedAt.value < linger))
  }

  ghost predicate AllWaiting(s: State, linger: nat, sweep: nat, clock: nat) {
    s.caps.limits.linger <= linger && sweep <= clock
    && forall id :: id in s.lanes ==> Waiting(s.lanes[id], linger, sweep, clock)
  }

  /** Flushing empties what it visits and leaves the rest as it was. */
  lemma {:induction false} FlushEachEmpties(s: State, ids: seq<Id>, id: Id)
    ensures FlushEach(s, ids).caps == s.caps
    ensures id in FlushEach(s, ids).lanes ==>
              && id in s.lanes
              && var l := FlushEach(s, ids).lanes[id];
                 && l.admitted == s.lanes[id].admitted
                 && (l.batch == s.lanes[id].batch || l.batch == EMPTY)
                 && (id in ids ==> l.batch.datagrams == [])
  {
    if ids == [] {
    } else {
      FlushEachEmpties(s, ids[..|ids| - 1], id);
    }
  }

  lemma SweepWaiting(s: State, linger: nat, sweep: nat, clock: nat, order: seq<Id>, now: nat)
    requires AllWaiting(s, linger, sweep, clock) && clock <= now
    requires forall id :: id in Due(s, now) ==> id in order
    ensures AllWaiting(FlushEach(s, order), linger, now, now)
  {
    FlushEachEmpties(s, order, []);
    forall id | id in FlushEach(s, order).lanes ensures Waiting(FlushEach(s, order).lanes[id], linger, now, now) {
      FlushEachEmpties(s, order, id);
      assert Waiting(s.lanes[id], linger, sweep, clock);
      if id !in order {
        assert id !in Due(s, now);
      }
    }
  }

  lemma FlushAllWaiting(s: State, linger: nat, sweep: nat, clock: nat, order: seq<Id>)
    requires AllWaiting(s, linger, sweep, clock)
    ensures AllWaiting(FlushEach(s, order), linger, sweep, clock)
  {
    FlushEachEmpties(s, order, []);
    forall id | id in FlushEach(s, order).lanes ensures Waiting(FlushEach(s, order).lanes[id], linger, sweep, clock) {
      FlushEachEmpties(s, order, id);
      assert Waiting(s.lanes[id], linger, sweep, clock);
    }
  }

  lemma AfterWaiting(l: Lane, d: Datagram, limits: Limits, linger: nat, sweep: nat, clock: nat)
    requires Waiting(l, linger, sweep, clock) && sweep <= clock
    ensures Waiting(After(l, d, clock, limits), linger, sweep, clock)
  {
  }

  lemma ReceiveWaiting(s: State, linger: nat, sweep: nat, clock: nat, p: Packet, v: Verdicts)
    requires AllWaiting(s, linger, sweep, clock)
    ensures AllWaiting(Receive(s, p, v, clock), linger, sweep, clock)
  {
    ReceiveChanges(s, p, v, clock);
    if IsAccepted(s, p, v) {
      var l := LaneAt(s, v.backend.value);
      assert Waiting(l, linger, sweep, clock);
      AfterWaiting(l, AsDatagram(p), s.caps.limits, linger, sweep, clock);
    }
  }

  /** One event at the time of the clock. */
  lemma StepWaiting(s: State, limit: nat, sweep: nat, t: Timed)
    requires AllWaiting(s, limit, sweep, t.at)
    requires t.event.Sweep? ==> forall id :: id in Due(s, t.at) ==> id in t.event.order
    requires t.event.Reload? && t.event.entry.Some? ==> t.event.entry.value.limits.linger <= limit
    ensures AllWaiting(Step(s, t), limit, if t.event.Sweep? then t.at else sweep, t.at)
  {
    match t.event
    case Receives(p, v) => ReceiveWaiting(s, limit, sweep, t.at, p, v);
    case Sweep(order) => SweepWaiting(s, limit, sweep, t.at, order, t.at);
    case FlushAll(order) => FlushAllWaiting(s, limit, sweep, t.at, order);
    case _ =>
  }

  lemma WaitingLater(s: State, limit: nat, sweep: nat, clock: nat, now: nat)
    requires AllWaiting(s, limit, sweep, clock) && clock <= now
    ensures AllWaiting(s, limit, sweep, now)
  {
    forall id | id in s.lanes ensures Waiting(s.lanes[id], limit, sweep, now) {
      assert Waiting(s.lanes[id], limit, sweep, clock);
    }
  }

  lemma {:induction false} RunWaiting(limit: nat, caps: Caps, depths: map<Id, nat>, h: seq<Timed>, now: nat)
    requires caps.limits.linger <= limit && LingerAtMost(limit, h) && Orderly(Start(caps, depths), h, now)
    ensures AllWaiting(Run(Start(caps, depths), h), limit, LastSweep(h), now)
  {
    if h == [] {
    } else {
      var t, before := h[|h| - 1], h[..|h| - 1];
      RunWaiting(limit, caps, depths, before, t.at);
      var s := Run(Start(caps, depths), before);
      StepWaiting(s, limit, LastSweep(before), t);
      WaitingLater(Step(s, t), limit, LastSweep(h), t.at, now);
    }
  }

  /** While the linger is never set above a limit, no datagram has been buffered longer than the limit plus the time
      since the last sweep: if sweeps are never more than P apart, never longer than limit + P. */
  lemma WaitingTimeIsBounded(limit: nat, caps: Caps, depths: map<Id, nat>, h: seq<Timed>, now: nat, id: Id, i: nat)
    requires caps.limits.linger <= limit && LingerAtMost(limit, h) && Orderly(Start(caps, depths), h, now)
    requires var l := LaneAt(Run(Start(caps, depths), h), id);
             |l.admitted| - |l.batch.datagrams| <= i < |l.admitted|
    ensures now - LaneAt(Run(Start(caps, depths), h), id).admitted[i].at <= limit + (now - LastSweep(h))
  {
    RunWaiting(limit, caps, depths, h, now);
    assert Waiting(LaneAt(Run(Start(caps, depths), h), id), limit, LastSweep(h), now);
  }
}
