/** What the UDP ingress has done, compared with a plain reading of the events it was given: the reference never looks
    at a batch, a queue or a counter. */
module UdpHistory {
  import opened Bytes
  import opened Protocol
  import opened UdpBatch
  import opened UdpIngress

  // ---- The reference ----

  /** The caps in force: those of the last reload that had an entry for this ingress. */
  ghost function CapsAfter(caps: Caps, h: seq<Timed>): Caps {
    if h == [] then caps
    else
      var last := h[|h| - 1].event;
      if last.Reload? && last.entry.Some? then last.entry.value else CapsAfter(caps, h[..|h| - 1])
  }

  /** The packets that pass admission and are for one backend, in the order they came. */
  ghost function Admissions(caps: Caps, h: seq<Timed>, id: Id): seq<Arrival> {
    if h == [] then []
    else
      var last, before := h[|h| - 1].event, Admissions(caps, h[..|h| - 1], id);
      if last.Receives? && last.v.allowed && last.v.withinRate && last.v.backend == Some(id)
         && |last.p.payload| <= CapsAfter(caps, h[..|h| - 1]).maxDatagramBytes
      then before + [Arrival(Datagram(last.p.peer, last.p.recvAtUnixNanos, last.p.payload), h[|h| - 1].at)]
      else before
  }

  /** How many packets came, and how many of them admission refused for one reason. */
  ghost function Arrivals(h: seq<Timed>): nat {
    if h == [] then 0 else Arrivals(h[..|h| - 1]) + if h[|h| - 1].event.Receives? then 1 else 0
  }

  ghost function Refused(caps: Caps, h: seq<Timed>, reason: DropReason): nat {
    if h == [] then 0
    else
      var last := h[|h| - 1].event;
      Refused(caps, h[..|h| - 1], reason)
      + if last.Receives? && RefusedFor(reason, last.p, last.v, CapsAfter(caps, h[..|h| - 1])) then 1 else 0
  }

  /** Denied by the access list; else over the rate; else larger than the cap. */
  predicate RefusedFor(reason: DropReason, p: Packet, v: Verdicts, caps: Caps) {
    match reason
    case Acl => !v.allowed
    case RateLimit => v.allowed && !v.withinRate
    case Oversize => v.allowed && v.withinRate && |p.payload| > caps.maxDatagramBytes
    case _ => false
  }

  predicate AtTheDoor(reason: DropReason) { reason == Acl || reason == RateLimit || reason == Oversize }

  // ---- The loop follows it ----

  /** What flushing does not touch. */
  ghost predicate SameLog(s: State, r: State, id: Id) {
    && r.caps == s.caps && r.received == s.received
    && LaneAt(r, id).admitted == LaneAt(s, id).admitted
    && forall reason :: AtTheDoor(reason) ==> r.dropped[reason] == s.dropped[reason]
  }

  lemma FlushKeepsLog(s: State, at: Id, id: Id)
    ensures SameLog(s, FlushBackend(s, at), id)
  {
  }

  lemma {:induction false} FlushEachKeepsLog(s: State, ids: seq<Id>, id: Id)
    ensures SameLog(s, FlushEach(s, ids), id)
  {
    if ids == [] {
    } else {
      FlushEachKeepsLog(s, ids[..|ids| - 1], id);
      FlushKeepsLog(FlushEach(s, ids[..|ids| - 1]), ids[|ids| - 1], id);
    }
  }

  lemma AcceptLogs(s: State, to: Id, d: Datagram, now: nat, id: Id)
    ensures var r := Accept(s, to, d, now);
            && r.caps == s.caps && r.received == s.received
            && LaneAt(r, id).admitted == LaneAt(s, id).admitted + (if id == to then [Arrival(d, now)] else [])
            && forall reason :: AtTheDoor(reason) ==> r.dropped[reason] == s.dropped[reason]
  {
    FlushKeepsLog(SetLane(s, to, BufferIn(LaneAt(s, to), d, now)), to, id);
  }

  ghost predicate Follows(caps: Caps, h: seq<Timed>, s: State, id: Id) {
    && s.caps == CapsAfter(caps, h)
    && s.received == Arrivals(h)
    && LaneAt(s, id).admitted == Admissions(caps, h, id)
    && forall reason :: AtTheDoor(reason) ==> s.dropped[reason] == Refused(caps, h, reason)
  }

  lemma ReceiveFollows(caps: Caps, h: seq<Timed>, s: State, id: Id)
    requires h != [] && h[|h| - 1].event.Receives? && Follows(caps, h[..|h| - 1], s, id)
    ensures Follows(caps, h, Step(s, h[|h| - 1]), id)
  {
    var t := h[|h| - 1];
    var p, v := t.event.p, t.event.v;
    AdmitExactly(p, v, s.caps);
    match Rejection(p, v, s.caps)
    case Some(reason) => RejectionLogs(s, p, v, id);
    case None => AcceptLogs(Counted(s), v.backend.value, AsDatagram(p), t.at, id);
  }

  /** A packet that goes no further changes the drop counters only, at the door by the reason it is refused for. */
  lemma RejectionLogs(s: State, p: Packet, v: Verdicts, id: Id)
    requires Rejection(p, v, s.caps).Some?
    ensures var r := Drop(Counted(s), Rejection(p, v, s.caps).value, 1);
            && r.caps == s.caps && LaneAt(r, id) == LaneAt(s, id)
            && forall reason :: AtTheDoor(reason) ==>
                 r.dropped[reason] == s.dropped[reason] + if RefusedFor(reason, p, v, s.caps) then 1 else 0
  {
    AdmitExactly(p, v, s.caps);
  }

  lemma {:induction false} RunFollows(caps: Caps, depths: map<Id, nat>, h: seq<Timed>, id: Id)
    ensures Follows(caps, h, Run(Start(caps, depths), h), id)
  {
    if h == [] {
    } else {
      var s, t := Run(Start(caps, depths), h[..|h| - 1]), h[|h| - 1];
      RunFollows(caps, depths, h[..|h| - 1], id);
      match t.event
      case Receives(_, _) => ReceiveFollows(caps, h, s, id);
      case Sweep(order) => FlushEachKeepsLog(s, order, id);
      case FlushAll(order) => FlushEachKeepsLog(s, order, id);
      case _ =>
    }
  }

  /** Over every interleaving of packets, sweeps, reloads, writer steps and flushes: what was handed off for a
      backend, taken or refused, followed by what is buffered for it, is exactly the packets admitted for it, in
      order; its writer and its queue have exactly the batches the queue took; every packet is counted as received;
      and the admission counters are the refusals. */
  lemma BackendGetsItsAdmissions(caps: Caps, depths: map<Id, nat>, h: seq<Timed>, id: Id)
    ensures var s := Run(Start(caps, depths), h);
            var l := LaneAt(s, id);
            && Handed(l.handoffs) + l.batch.datagrams == Datagrams(Admissions(caps, h, id))
            && l.written + (if l.queue.Some? then l.queue.value.items else []) == Taken(l.handoffs)
            && s.received == Arrivals(h)
            && forall reason :: AtTheDoor(reason) ==> s.dropped[reason] == Refused(caps, h, reason)
  {
    RunFollows(caps, depths, h, id);
    NothingLostOrReordered(caps, depths, h);
    assert InOrder(LaneAt(Run(Start(caps, depths), h), id));
  }

  // ---- Shutdown ----

  lemma {:induction false} FlushedIsEmpty(s: State, ids: seq<Id>, id: Id)
    requires id in ids || LaneAt(s, id).batch.datagrams == []
    ensures LaneAt(FlushEach(s, ids), id).batch.datagrams == []
  {
    if ids == [] {
    } else {
      var front, last := ids[..|ids| - 1], ids[|ids| - 1];
      assert ids == front + [last];
      if id in front || LaneAt(s, id).batch.datagrams == [] {
        FlushedIsEmpty(s, front, id);
      }
    }
  }

  /** After a final flush that visits every batch nothing is left behind: for each backend the batches handed off are
      its admissions, and every packet received is in a batch some queue took or in a drop counter. */
  lemma FinalFlushLeavesNothing(caps: Caps, depths: map<Id, nat>, h: seq<Timed>, order: seq<Id>, now: nat, id: Id)
    requires forall k :: LaneAt(Run(Start(caps, depths), h), k).batch.datagrams != [] ==> k in order
    ensures var all := h + [Timed(FlushAll(order), now)];
            var s := Run(Start(caps, depths), all);
            && LaneAt(s, id).batch.datagrams == []
            && Handed(LaneAt(s, id).handoffs) == Datagrams(Admissions(caps, h, id))
            && Conserved(s)
  {
    var all := h + [Timed(FlushAll(order), now)];
    assert all[..|h|] == h;
    FlushedIsEmpty(Run(Start(caps, depths), h), order, id);
    BackendGetsItsAdmissions(caps, depths, all, id);
    NothingLostOrReordered(caps, depths, all);
    var l := LaneAt(Run(Start(caps, depths), all), id);
    assert Handed(l.handoffs) + [] == Handed(l.handoffs);
  }
}
