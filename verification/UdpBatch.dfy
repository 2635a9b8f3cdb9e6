/** One backend's in-flight batch (src/ingress/batch.rs): when it is handed off, and what it holds. */
module UdpBatch {
  import opened Bytes
  import opened Protocol

  datatype Limits = Limits(maxDatagrams: U32, maxBytes: U32, linger: nat)

  datatype FlushReason = Count | Bytes

  /** A batch as a value. The payload is counted in a machine word and saturates. */
  datatype Content = Content(datagrams: seq<Datagram>, payloadBytes: nat, openedAt: Option<nat>)

  const EMPTY := Content([], 0, None)

  function Pushed(b: Content, now: nat, d: Datagram): Content {
    Content(b.datagrams + [d],
            SaturatingAdd(b.payloadBytes, |d.payload|),
            if b.datagrams == [] then Some(now) else b.openedAt)
  }

  function FillFlush(b: Content, limits: Limits): Option<FlushReason> {
    if b.datagrams == [] then None
    else if |b.datagrams| >= limits.maxDatagrams then Some(Count)
    else if b.payloadBytes >= limits.maxBytes then Some(Bytes)
    else None
  }

  predicate LingerExpired(b: Content, limits: Limits, now: nat) {
    b.openedAt.Some? && Elapsed(b.openedAt.value, now) >= limits.linger
  }

  /** A batch is due by fill exactly when it is not empty and one of the caps is reached; the count is named first. */
  lemma FillFlushExactly(b: Content, limits: Limits)
    ensures FillFlush(b, limits) == Some(Count) <==> b.datagrams != [] && |b.datagrams| >= limits.maxDatagrams
    ensures FillFlush(b, limits) == Some(Bytes)
            <==> 0 < |b.datagrams| < limits.maxDatagrams && b.payloadBytes >= limits.maxBytes
  {
  }

  /** The payload bytes of some datagrams. */
  function Payload(ds: seq<Datagram>): nat {
    if ds == [] then 0 else Payload(ds[..|ds| - 1]) + |ds[|ds| - 1].payload|
  }

  lemma PayloadPush(ds: seq<Datagram>, d: Datagram)
    ensures Payload(ds + [d]) == Payload(ds) + |d.payload|
  {
    assert (ds + [d])[..|ds|] == ds;
  }

  class Batch {
    var datagrams: seq<Datagram>
    var payloadBytes: nat
    var openedAt: Option<nat>

    function Value(): Content
      reads this
    {
      Content(datagrams, payloadBytes, openedAt)
    }

    constructor ()
      ensures Value() == EMPTY
    {
      datagrams, payloadBytes, openedAt := [], 0, None;
    }

    method Push(now: nat, d: Datagram)
      modifies this
      ensures Value() == Pushed(old(Value()), now, d)
    {
      if datagrams == [] {
        openedAt := Some(now);
      }
      payloadBytes := SaturatingAdd(payloadBytes, |d.payload|);
      datagrams := datagrams + [d];
    }

    method Take() returns (ds: seq<Datagram>)
      modifies this
      ensures ds == old(datagrams) && Value() == EMPTY
    {
      payloadBytes := 0;
      openedAt := None;
      ds := datagrams;
      datagrams := [];
    }
  }
}
