/** The receive loop as the object it is: batches, queues and counters updated in place. Every method is shown to take
    the represented state where the corresponding step of UdpIngress takes it. */
module UdpLoop {
  import opened Bytes
  import opened Protocol
  import opened UdpBatch
  import opened UdpIngress
  import opened UdpHistory

  class Loop {
    var caps: Caps
    var batches: map<Id, Batch>
    var queues: map<Id, Queue>
    var received: nat
    var dropped: multiset<DropReason>

    ghost var admitted: map<Id, seq<Arrival>>
    ghost var handoffs: map<Id, seq<Handoff>>
    ghost var written: map<Id, seq<seq<Datagram>>>

    /** No two backends share a batch. */
    ghost predicate Valid()
      reads this
    {
      forall i, j :: i in batches && j in batches && i != j ==> batches[i] != batches[j]
    }

    function QueueOf(id: Id): Option<Queue>
      reads this`queues
    {
      if id in queues then Some(queues[id]) else None
    }

    ghost function HandoffsOf(id: Id): seq<Handoff>
      reads this`handoffs
    {
      if id in handoffs then handoffs[id] else []
    }

    ghost function LaneOf(id: Id): Lane
      reads this, batches.Values
    {
      Lane(if id in batches then batches[id].Value() else EMPTY,
           QueueOf(id),
           if id in admitted then admitted[id] else [],
           HandoffsOf(id),
           if id in written then written[id] else [])
    }

    ghost predicate Represents(s: State)
      reads this, batches.Values
    {
      && Valid()
      && caps == s.caps && received == s.received && dropped == s.dropped
      && forall id :: LaneOf(id) == LaneAt(s, id)
    }

    constructor (caps: Caps, depths: map<Id, nat>)
      ensures Represents(Start(caps, depths)) && batches == map[]
    {
      this.caps := caps;
      batches := map[];
      queues := map id | id in depths :: Queue([], depths[id], true);
      received, dropped := 0, multiset{};
      admitted, handoffs, written := map[], map[], map[];
    }

    method RecordDrop(reason: DropReason, count: nat)
      modifies this`dropped
      ensures dropped == old(dropped)[reason := old(dropped)[reason] + count]
    {
      dropped := dropped[reason := dropped[reason] + count];
    }

    /** Hands the batch to the queue without waiting, or counts all of it as dropped. */
    method EnqueueBatch(id: Id, ds: seq<Datagram>)
      modifies this`queues, this`dropped, this`handoffs
      ensures var took := id in old(queues) && old(queues[id]).alive && |old(queues[id]).items| < old(queues[id]).depth;
              HandoffsOf(id) == old(HandoffsOf(id)) + [Handoff(ds, took)]
      ensures QueueOf(id) == if old(Refusal(QueueOf(id))).Some? then old(QueueOf(id))
                             else Some(old(queues[id]).(items := old(queues[id]).items + [ds]))
      ensures forall k :: k != id ==> QueueOf(k) == old(QueueOf(k)) && HandoffsOf(k) == old(HandoffsOf(k))
      ensures var refusal := old(Refusal(QueueOf(id)));
              dropped == if refusal.None? then old(dropped)
                         else old(dropped)[refusal.value := old(dropped)[refusal.value] + |ds|]
    {
      var took := false;
      if id !in queues {
        RecordDrop(NoBackend, |ds|);
      } else if !queues[id].alive {
        RecordDrop(NoBackend, |ds|);
      } else if |queues[id].items| >= queues[id].depth {
        RecordDrop(Backpressure, |ds|);
      } else {
        queues := queues[id := queues[id].(items := queues[id].items + [ds])];
        took := true;
      }
      handoffs := handoffs[id := HandoffsOf(id) + [Handoff(ds, took)]];
    }

    method FlushBackend(id: Id)
      requires Valid()
      modifies this`queues, this`dropped, this`handoffs, batches.Values
      ensures Valid()
      ensures old(LaneOf(id)).batch.datagrams == [] ==> LaneOf(id) == old(LaneOf(id)) && dropped == old(dropped)
      ensures old(LaneOf(id)).batch.datagrams != [] ==>
                && LaneOf(id) == FlushLane(old(LaneOf(id)))
                && var refusal, ds := Refusal(old(LaneOf(id)).queue), old(LaneOf(id)).batch.datagrams;
                   dropped == if refusal.None? then old(dropped)
                              else old(dropped)[refusal.value := old(dropped)[refusal.value] + |ds|]
      ensures forall k :: k != id ==> LaneOf(k) == old(LaneOf(k))
    {
      if id !in batches {
        return;
      }
      var batch := batches[id];
      if batch.datagrams == [] {
        return;
      }
      var ds := batch.Take();
      EnqueueBatch(id, ds);
    }

    /** One flush takes the represented state where the step does. */
    method Flush(id: Id, ghost s: State)
      requires Represents(s)
      modifies this`queues, this`dropped, this`handoffs, batches.Values
      ensures Represents(UdpIngress.FlushBackend(s, id))
    {
      FlushBackend(id);
      forall k ensures LaneOf(k) == LaneAt(UdpIngress.FlushBackend(s, id), k) {
        assert old(LaneOf(k)) == LaneAt(s, k);
      }
    }

    /** Flushes every batch whose linger has expired, in whatever order the map gives them. */
    method FlushExpired(now: nat, ghost s: State) returns (ghost order: seq<Id>)
      requires Represents(s)
      modifies this`queues, this`dropped, this`handoffs, batches.Values
      ensures Represents(FlushEach(s, order))
      ensures forall id :: id in order <==> id in batches && LingerExpired(LaneAt(s, id).batch, s.caps.limits, now)
      ensures forall id :: id in order <==>
                var b, linger := LaneAt(s, id).batch, s.caps.limits.linger;
                id in batches && b.openedAt.Some? && (linger == 0 || b.openedAt.value + linger <= now)
    {
      var due := set id | id in batches && LingerExpired(batches[id].Value(), caps.limits, now);
      forall id | id in batches ensures id in due <==> LingerExpired(LaneAt(s, id).batch, s.caps.limits, now) {
        assert LaneOf(id) == LaneAt(s, id);
      }
      order := FlushSet(due, s);
    }

    /** The shutdown flush: every batch gets one last hand-off. */
    method FlushAll(ghost s: State) returns (ghost order: seq<Id>)
      requires Represents(s)
      modifies this`queues, this`dropped, this`handoffs, batches.Values
      ensures Represents(FlushEach(s, order))
      ensures forall id :: id in order <==> id in batches
      ensures forall id :: LaneAt(s, id).batch.datagrams != [] ==> id in order
    {
      forall id | LaneAt(s, id).batch.datagrams != [] ensures id in batches {
        assert LaneOf(id) == LaneAt(s, id);
      }
      order := FlushSet(batches.Keys, s);
    }

    /** The end of the loop after any run: nothing stays buffered, what was handed off for each backend is exactly the
        packets admitted for it, and every packet received is in a batch some queue took or in a drop counter. */
    method Shutdown(ghost caps: Caps, ghost depths: map<Id, nat>, ghost h: seq<Timed>, now: nat)
      returns (ghost s: State)
      requires Represents(Run(Start(caps, depths), h))
      modifies this`queues, this`dropped, this`handoffs, batches.Values
      ensures forall id :: LaneOf(id).batch.datagrams == []
      ensures forall id :: Handed(HandoffsOf(id)) == Datagrams(Admissions(caps, h, id))
      ensures Represents(s) && Conserved(s)
    {
      ghost var before := Run(Start(caps, depths), h);
      ghost var order := FlushAll(before);
      ghost var all := h + [Timed(Event.FlushAll(order), now)];
      assert all[..|h|] == h;
      s := Run(Start(caps, depths), all);
      assert s == FlushEach(before, order);
      forall id
        ensures LaneOf(id).batch.datagrams == [] && Handed(HandoffsOf(id)) == Datagrams(Admissions(caps, h, id))
      {
        FinalFlushLeavesNothing(caps, depths, h, order, now, id);
        assert LaneOf(id) == LaneAt(s, id);
      }
      NothingLostOrReordered(caps, depths, all);
    }

    method FlushSet(ids: set<Id>, ghost s: State) returns (ghost order: seq<Id>)
      requires Represents(s)
      modifies this`queues, this`dropped, this`handoffs, batches.Values
      ensures Represents(FlushEach(s, order))
      ensures forall id :: id in order <==> id in ids
    {
      order := [];
      var rest := ids;
      while rest != {}
        invariant rest <= ids
        invariant forall id :: id in order <==> id in ids - rest
        invariant Represents(FlushEach(s, order))
        decreases |rest|
      {
        var id :| id in rest;
        Flush(id, FlushEach(s, order));
        assert (order + [id])[..|order|] == order;
        order := order + [id];
        rest := rest - {id};
      }
    }

    /** Caps, linger and the datagram limit take effect at once; a missing entry changes nothing. */
    method ApplyReload(entry: Option<Caps>, ghost s: State) returns (lingerChanged: bool)
      requires Represents(s)
      modifies this`caps
      ensures Represents(Step(s, Timed(Reload(entry), 0)))
      ensures lingerChanged <==> caps.limits.linger != old(caps.limits.linger)
    {
      if entry.None? {
        return false;
      }
      lingerChanged := caps.limits.linger != entry.value.limits.linger;
      caps := entry.value;
      forall k ensures LaneOf(k) == LaneAt(Step(s, Timed(Reload(entry), 0)), k) {
        assert old(LaneOf(k)) == LaneAt(s, k);
      }
    }

    /** Puts an admitted datagram into its backend's batch, opening one if there is none. */
    method BufferDatagram(id: Id, d: Datagram, now: nat)
      requires Valid()
      modifies this`batches, this`admitted, batches.Values
      ensures Valid()
      ensures id in batches && LaneOf(id) == BufferIn(old(LaneOf(id)), d, now)
      ensures forall k :: k != id ==> LaneOf(k) == old(LaneOf(k))
      ensures fresh(batches.Values - old(batches.Values))
    {
      if id !in batches {
        var empty := new Batch();
        batches := batches[id := empty];
      }
      var batch := batches[id];
      batch.Push(now, d);
      admitted := admitted[id := (if id in admitted then admitted[id] else []) + [Arrival(d, now)]];
    }

    method RecordReceived(ghost s: State)
      requires Represents(s)
      modifies this`received
      ensures Represents(Counted(s))
    {
      received := received + 1;
      forall k ensures LaneOf(k) == LaneAt(s, k) {
        assert old(LaneOf(k)) == LaneAt(s, k);
      }
    }

    method DropOne(reason: DropReason, ghost s: State)
      requires Represents(s)
      modifies this`dropped
      ensures Represents(Drop(s, reason, 1))
    {
      RecordDrop(reason, 1);
      forall k ensures LaneOf(k) == LaneAt(s, k) {
        assert old(LaneOf(k)) == LaneAt(s, k);
      }
    }

    /** Batches one datagram, and flushes when that fills the batch. */
    method AcceptDatagram(id: Id, d: Datagram, now: nat, ghost s: State)
      requires Represents(s)
      modifies this, batches.Values
      ensures Represents(Accept(s, id, d, now))
    {
      assert LaneOf(id) == LaneAt(s, id);
      BufferDatagram(id, d, now);
      ghost var next := SetLane(s, id, BufferIn(LaneAt(s, id), d, now));
      forall k ensures LaneOf(k) == LaneAt(next, k) {
        assert old(LaneOf(k)) == LaneAt(s, k);
      }
      var batch := batches[id];
      if FillFlush(batch.Value(), caps.limits).Some? {
        Flush(id, next);
      }
    }

    /** One packet: counted, admitted or dropped with a reason, batched, and flushed when that fills the batch. */
    method HandleDatagram(p: Packet, v: Verdicts, now: nat, ghost s: State)
      requires Represents(s)
      modifies this, batches.Values
      ensures Represents(Receive(s, p, v, now))
    {
      RecordReceived(s);
      var refused := Admit(p, v, caps);
      if refused.Some? {
        DropOne(refused.value, Counted(s));
      } else if v.backend.None? {
        DropOne(NoBackend, Counted(s));
      } else {
        AcceptDatagram(v.backend.value, AsDatagram(p), now, Counted(s));
      }
    }
  }
}
