/** Whether every batch the UDP ingress hands off fits one frame, for the configured caps and a payload codec.

    The largest batch is `maxDatagrams` datagrams with `MaxPayload` bytes between them: empty datagrams make up the
    number. Its contents are free, too many for an invertible codec to write them all in fewer bytes. */
module UdpFrames {
  import opened Bytes
  import opened Net
  import opened Protocol
  import opened UdpBatch
  import opened UdpIngress
  import opened UdpBounds

  /** The caps stay as they are. */
  ghost predicate Fixed(caps: Caps, h: seq<Timed>) {
    forall i :: 0 <= i < |h| && h[i].event.Reload? ==> h[i].event.entry == None || h[i].event.entry == Some(caps)
  }

  /** What the listening socket is bound to. An IPv4 socket has IPv4 peers only; an IPv6 one can have any. */
  datatype Family = Ipv4 | Ipv6

  ghost predicate OfFamily(f: Family, p: Peer) {
    f == Ipv6 || exists a: SocketAddr :: a.ip.V4? && FromSocketAddr(a) == p
  }

  ghost predicate AllOfFamily(f: Family, ds: seq<Datagram>) {
    forall i :: 0 <= i < |ds| ==> OfFamily(f, ds[i].peer)
  }

  ghost predicate Listens(f: Family, h: seq<Timed>) {
    forall i :: 0 <= i < |h| && h[i].event.Receives? ==> OfFamily(f, h[i].event.p.peer)
  }

  /** Some run with these caps hands off this batch. */
  ghost predicate CanBeHandedOff(f: Family, caps: Caps, ds: seq<Datagram>) {
    exists depths: map<Id, nat>, h: seq<Timed>, id: Id, out: Handoff ::
      Fixed(caps, h) && Listens(f, h) && out in LaneAt(Run(Start(caps, depths), h), id).handoffs && out.batch == ds
  }

  /** Every batch any run hands off is encoded within the frame ceiling. */
  ghost predicate FramesFit(f: Family, caps: Caps, c: Codec) {
    forall ds: seq<Datagram> :: CanBeHandedOff(f, caps, ds) ==> Encodable(c, Envelope.Batch(ds))
  }

  lemma HandedOffIsWithin(f: Family, caps: Caps, ds: seq<Datagram>)
    requires NonZero(caps) && CanBeHandedOff(f, caps, ds)
    ensures WithinBounds(caps, ds)
  {
    var depths: map<Id, nat>, h: seq<Timed>, id: Id, out: Handoff :|
      Fixed(caps, h) && Listens(f, h) && out in LaneAt(Run(Start(caps, depths), h), id).handoffs && out.batch == ds;
    HandoffsAreBounded(caps, caps, depths, h, id, out);
  }

  // ---- Any batch that closes with its last datagram is handed off by some run ----

  /** A packet that is admitted for a backend and becomes this datagram. */
  function PacketFor(id: Id, d: Datagram): Timed {
    Timed(Receives(Packet(d.payload, d.peer, d.recvAtUnixNanos), Verdicts(true, true, Some(id))), 0)
  }

  function Packets(id: Id, ds: seq<Datagram>): seq<Timed> {
    if ds == [] then [] else Packets(id, ds[..|ds| - 1]) + [PacketFor(id, ds[|ds| - 1])]
  }

  /** What one such packet does. */
  lemma PacketLands(s: State, id: Id, d: Datagram)
    requires |d.payload| <= s.caps.maxDatagramBytes
    ensures var r := Step(s, PacketFor(id, d));
            r.caps == s.caps && LaneAt(r, id) == After(LaneAt(s, id), d, 0, s.caps.limits)
  {
    var t := PacketFor(id, d);
    ReceiveChanges(s, t.event.p, t.event.v, 0);
    assert AsDatagram(t.event.p) == d;
  }

  /** Datagrams that together stay under both caps all end up in one open batch. */
  lemma {:induction false} PacketsAccumulate(caps: Caps, depths: map<Id, nat>, id: Id, ds: seq<Datagram>)
    requires StillOpen(caps, ds)
    ensures var s := Run(Start(caps, depths), Packets(id, ds));
            s.caps == caps && LaneAt(s, id).batch.datagrams == ds && LaneAt(s, id).batch.payloadBytes == Payload(ds)
    ensures Fixed(caps, Packets(id, ds))
  {
    if ds == [] {
    } else {
      var front, last := ds[..|ds| - 1], ds[|ds| - 1];
      FrontIsOpen(caps, ds);
      PacketsAccumulate(caps, depths, id, front);
      var s := Run(Start(caps, depths), Packets(id, front));
      RunPush(Start(caps, depths), Packets(id, front), PacketFor(id, last));
      PacketLands(s, id, last);
      StaysOpen(LaneAt(s, id), last, caps);
    }
  }

  lemma FrontIsOpen(caps: Caps, ds: seq<Datagram>)
    requires ds != [] && StillOpen(caps, ds)
    ensures StillOpen(caps, ds[..|ds| - 1]) && ds == ds[..|ds| - 1] + [ds[|ds| - 1]]
  {
  }

  lemma RunPush(s: State, h: seq<Timed>, t: Timed)
    ensures Run(s, h + [t]) == Step(Run(s, h), t)
  {
    assert (h + [t])[..|h|] == h;
  }

  /** A datagram that leaves the batch under both caps stays in it. */
  lemma StaysOpen(l: Lane, d: Datagram, caps: Caps)
    requires l.batch.payloadBytes == Payload(l.batch.datagrams) && StillOpen(caps, l.batch.datagrams + [d])
    ensures var next := After(l, d, 0, caps.limits).batch;
            next.datagrams == l.batch.datagrams + [d] && next.payloadBytes == Payload(next.datagrams)
  {
    PayloadPush(l.batch.datagrams, d);
  }

  /** A datagram that brings the batch to a cap sends it off with the datagram in it. */
  lemma LastDatagramFlushes(l: Lane, d: Datagram, limits: Limits)
    requires l.batch.payloadBytes == Payload(l.batch.datagrams) < limits.maxBytes && |d.payload| < U32_SIZE
    requires |l.batch.datagrams| + 1 >= limits.maxDatagrams
    ensures Handoff(l.batch.datagrams + [d], Refusal(l.queue).None?) in After(l, d, 0, limits).handoffs
  {
    var out := Handoff(l.batch.datagrams + [d], Refusal(l.queue).None?);
    assert After(l, d, 0, limits).handoffs == l.handoffs + [out];
  }

  lemma LastPacketHandsOff(s: State, id: Id, d: Datagram)
    requires var b := LaneAt(s, id).batch;
             && b.payloadBytes == Payload(b.datagrams) < s.caps.limits.maxBytes
             && |b.datagrams| + 1 >= s.caps.limits.maxDatagrams && |d.payload| <= s.caps.maxDatagramBytes
    ensures var l := LaneAt(s, id);
            Handoff(l.batch.datagrams + [d], Refusal(l.queue).None?) in LaneAt(Step(s, PacketFor(id, d)), id).handoffs
  {
    PacketLands(s, id, d);
    LastDatagramFlushes(LaneAt(s, id), d, s.caps.limits);
  }

  /** A batch of the full number of datagrams, the byte cap not reached before the last. */
  ghost predicate Full(caps: Caps, ds: seq<Datagram>) {
    ds != [] && Small(caps, ds) && |ds| == caps.limits.maxDatagrams && Payload(ds[..|ds| - 1]) < caps.limits.maxBytes
  }

  lemma FullFrontIsOpen(caps: Caps, ds: seq<Datagram>)
    requires Full(caps, ds)
    ensures StillOpen(caps, ds[..|ds| - 1]) && ds == ds[..|ds| - 1] + [ds[|ds| - 1]]
  {
  }

  lemma HandedOff(f: Family, caps: Caps, depths: map<Id, nat>, h: seq<Timed>, id: Id, out: Handoff)
    requires Fixed(caps, h) && Listens(f, h) && out in LaneAt(Run(Start(caps, depths), h), id).handoffs
    ensures CanBeHandedOff(f, caps, out.batch)
  {
  }

  lemma {:induction false} PacketsListen(f: Family, id: Id, ds: seq<Datagram>)
    requires AllOfFamily(f, ds)
    ensures Listens(f, Packets(id, ds))
  {
    if ds == [] {
    } else {
      PacketsListen(f, id, ds[..|ds| - 1]);
    }
  }

  lemma FullBatchIsHandedOff(f: Family, caps: Caps, ds: seq<Datagram>)
    requires Full(caps, ds) && AllOfFamily(f, ds)
    ensures CanBeHandedOff(f, caps, ds)
  {
    var front, last, id, depths := ds[..|ds| - 1], ds[|ds| - 1], [], map[];
    var filling := Packets(id, front);
    FullFrontIsOpen(caps, ds);
    PacketsAccumulate(caps, depths, id, front);
    PacketsListen(f, id, front);
    var s := Run(Start(caps, depths), filling);
    LastPacketHandsOff(s, id, last);
    RunPush(Start(caps, depths), filling, PacketFor(id, last));
    HandedOff(f, caps, depths, filling + [PacketFor(id, last)], id, Handoff(ds, Refusal(LaneAt(s, id).queue).None?));
  }

  // ---- The sizes of the largest batch ----

  function Sum(sizes: seq<nat>): nat {
    if sizes == [] then 0 else Sum(sizes[..|sizes| - 1]) + sizes[|sizes| - 1]
  }

  /** A total spread over k datagrams of at most m bytes. */
  function Spread(total: nat, m: nat, k: nat): (r: seq<nat>)
    ensures |r| == k
  {
    if k == 0 then [] else Spread(total - Portion(total, m), m, k - 1) + [Portion(total, m)]
  }

  function Portion(total: nat, m: nat): nat { if total < m then total else m }

  lemma {:induction false} SpreadIsSmall(total: nat, m: nat, k: nat)
    ensures forall i :: 0 <= i < k ==> Spread(total, m, k)[i] <= m
  {
    if k == 0 {
    } else {
      SpreadIsSmall(total - Portion(total, m), m, k - 1);
    }
  }

  /** k times m. */
  ghost function Room(k: nat, m: nat): nat { if k == 0 then 0 else Room(k - 1, m) + m }

  lemma {:induction false} RoomIs(k: nat, m: nat)
    ensures Room(k, m) == k * m
  {
    if k == 0 {
    } else {
      RoomIs(k - 1, m);
      assert k * m == (k - 1) * m + m;
    }
  }

  lemma {:induction false} SpreadSums(total: nat, m: nat, k: nat)
    requires total <= Room(k, m)
    ensures Sum(Spread(total, m, k)) == total
  {
    if k == 0 {
    } else {
      var rest := total - Portion(total, m);
      SpreadSums(rest, m, k - 1);
      SumPush(Spread(rest, m, k - 1), Portion(total, m));
    }
  }

  /** `maxDatagrams` sizes that come to `MaxPayload`, staying under the byte cap up to the last. */
  ghost predicate FullSizes(caps: Caps, sizes: seq<nat>) {
    && |sizes| == caps.limits.maxDatagrams && sizes != []
    && (forall i :: 0 <= i < |sizes| ==> sizes[i] <= caps.maxDatagramBytes)
    && Sum(sizes[..|sizes| - 1]) < caps.limits.maxBytes
    && Sum(sizes) == MaxPayload(caps)
  }

  lemma RoomBeforeTheLast(caps: Caps)
    requires NonZero(caps)
    ensures var total := MaxPayload(caps) - caps.maxDatagramBytes;
            0 <= total < caps.limits.maxBytes && total <= (caps.limits.maxDatagrams - 1) * caps.maxDatagramBytes
  {
    MulMonotone(0, caps.limits.maxDatagrams - 1, caps.maxDatagramBytes);
  }

  lemma SumPush(sizes: seq<nat>, x: nat)
    ensures Sum(sizes + [x]) == Sum(sizes) + x
  {
    assert (sizes + [x])[..|sizes|] == sizes;
  }

  lemma FindFullSizes(caps: Caps) returns (sizes: seq<nat>)
    requires NonZero(caps)
    ensures FullSizes(caps, sizes)
  {
    RoomBeforeTheLast(caps);
    var k, m, total := caps.limits.maxDatagrams - 1, caps.maxDatagramBytes, MaxPayload(caps) - caps.maxDatagramBytes;
    var front := Spread(total, m, k);
    RoomIs(k, m);
    SpreadSums(total, m, k);
    SpreadIsSmall(total, m, k);
    SumPush(front, m);
    sizes := front + [m];
    assert sizes[..k] == front;
  }

  // ---- Batches of given sizes, read off a byte string ----

  /** The bytes in which a peer can differ: its address, four or sixteen of them, and its port. */
  function PeerWidth(f: Family): nat { if f == Ipv4 then 6 else 18 }

  function PeerOf(f: Family, d: Data): (p: Peer)
    requires |d| == PeerWidth(f)
    ensures OfFamily(f, p)
  {
    assert Pow256(2) == 0x1_0000;
    Pow256Widths();
    match f
    case Ipv4 =>
      FromOctetsRoundTrip(d[..4]);
      FromOctetsRoundTrip(d[4..]);
      FromSocketAddr(SocketAddr(V4(FromOctets(d[..4])), FromOctets(d[4..])))
    case Ipv6 =>
      FromOctetsRoundTrip(d[16..]);
      Peer(d[..16], FromOctets(d[16..]))
  }

  function PeerBytes(f: Family, p: Peer): Data {
    match f
    case Ipv4 =>
      var a := ToSocketAddr(p);
      Octets(4, if a.ip.V4? then a.ip.v4 else 0) + Octets(2, a.port)
    case Ipv6 => p.ip + Octets(2, p.port)
  }

  /** The peers and payloads of a batch with these payload sizes, in bytes. */
  function Weight(f: Family, sizes: seq<nat>): nat {
    if sizes == [] then 0 else Weight(f, sizes[..|sizes| - 1]) + PeerWidth(f) + sizes[|sizes| - 1]
  }

  lemma {:induction false} WeightIs(f: Family, sizes: seq<nat>)
    ensures Weight(f, sizes) == Sum(sizes) + PeerWidth(f) * |sizes|
  {
    if sizes == [] {
    } else {
      WeightIs(f, sizes[..|sizes| - 1]);
    }
  }

  lemma PeerRoundTrips(f: Family, d: Data)
    requires |d| == PeerWidth(f)
    ensures PeerBytes(f, PeerOf(f, d)) == d
  {
    match f
    case Ipv4 =>
      Pow256Widths();
      FromOctetsRoundTrip(d[..4]);
      FromOctetsRoundTrip(d[4..]);
      PeerRoundTrip(SocketAddr(V4(FromOctets(d[..4])), FromOctets(d[4..])));
      assert d == d[..4] + d[4..];
    case Ipv6 =>
      FromOctetsRoundTrip(d[16..]);
      assert d == d[..16] + d[16..];
  }

  /** A byte string cut into one piece per datagram. */
  function Pieces(f: Family, sizes: seq<nat>, d: Data): (r: seq<Data>)
    requires |d| == Weight(f, sizes)
    ensures |r| == |sizes| && forall i :: 0 <= i < |r| ==> |r[i]| == PeerWidth(f) + sizes[i]
  {
    if sizes == [] then []
    else
      var k := Weight(f, sizes[..|sizes| - 1]);
      Pieces(f, sizes[..|sizes| - 1], d[..k]) + [d[k..]]
  }

  lemma {:induction false} PiecesJoin(f: Family, sizes: seq<nat>, d: Data)
    requires |d| == Weight(f, sizes)
    ensures Concat(Pieces(f, sizes, d)) == d
  {
    if sizes == [] {
    } else {
      var front, k := sizes[..|sizes| - 1], Weight(f, sizes[..|sizes| - 1]);
      PiecesJoin(f, front, d[..k]);
      ConcatOne(Pieces(f, front, d[..k]), d[k..]);
    }
  }

  /** A piece is a peer and a payload. */
  function DatagramOf(f: Family, piece: Data): Datagram
    requires |piece| >= PeerWidth(f)
  {
    Datagram(PeerOf(f, piece[..PeerWidth(f)]), 0, piece[PeerWidth(f)..])
  }

  lemma DatagramOfInjective(f: Family, x: Data, y: Data)
    requires |x| >= PeerWidth(f) && |y| >= PeerWidth(f) && DatagramOf(f, x) == DatagramOf(f, y)
    ensures x == y
  {
    var w := PeerWidth(f);
    PeerRoundTrips(f, x[..w]);
    PeerRoundTrips(f, y[..w]);
    assert x == x[..w] + x[w..] && y == y[..w] + y[w..];
  }

  /** The batch with these payload sizes whose peers and payloads are a given byte string. */
  function BatchFrom(f: Family, sizes: seq<nat>, d: Data): (r: seq<Datagram>)
    requires |d| == Weight(f, sizes)
    ensures |r| == |sizes| && forall i :: 0 <= i < |r| ==> r[i] == DatagramOf(f, Pieces(f, sizes, d)[i])
  {
    var pieces := Pieces(f, sizes, d);
    seq(|sizes|, i requires 0 <= i < |sizes| => DatagramOf(f, pieces[i]))
  }

  lemma BatchFromShape(f: Family, sizes: seq<nat>, d: Data)
    requires |d| == Weight(f, sizes)
    ensures forall i :: 0 <= i < |sizes| ==> |BatchFrom(f, sizes, d)[i].payload| == sizes[i]
    ensures AllOfFamily(f, BatchFrom(f, sizes, d))
  {
  }

  /** Different byte strings are different batches. */
  lemma BatchFromInjective(f: Family, sizes: seq<nat>, d: Data, e: Data)
    requires |d| == |e| == Weight(f, sizes) && BatchFrom(f, sizes, d) == BatchFrom(f, sizes, e)
    ensures d == e
  {
    var x, y := Pieces(f, sizes, d), Pieces(f, sizes, e);
    forall i | 0 <= i < |sizes| ensures x[i] == y[i] {
      assert BatchFrom(f, sizes, d)[i] == BatchFrom(f, sizes, e)[i];
      DatagramOfInjective(f, x[i], y[i]);
    }
    assert x == y;
    PiecesJoin(f, sizes, d);
    PiecesJoin(f, sizes, e);
  }

  lemma {:induction false} BatchPayload(sizes: seq<nat>, ds: seq<Datagram>)
    requires |ds| == |sizes| && forall i :: 0 <= i < |ds| ==> |ds[i].payload| == sizes[i]
    ensures Payload(ds) == Sum(sizes)
  {
    if sizes == [] {
    } else {
      BatchPayload(sizes[..|sizes| - 1], ds[..|ds| - 1]);
    }
  }

  /** Whatever the byte string, some run hands off the batch. */
  lemma BatchFromIsHandedOff(f: Family, caps: Caps, sizes: seq<nat>, d: Data)
    requires FullSizes(caps, sizes) && |d| == Weight(f, sizes)
    ensures CanBeHandedOff(f, caps, BatchFrom(f, sizes, d)) && Payload(BatchFrom(f, sizes, d)) == MaxPayload(caps)
  {
    var ds, n := BatchFrom(f, sizes, d), |sizes| - 1;
    BatchFromShape(f, sizes, d);
    BatchPayload(sizes, ds);
    BatchPayload(sizes[..n], ds[..n]);
    FullBatchIsHandedOff(f, caps, ds);
  }

  /** Some run hands off a batch of `maxDatagrams` datagrams and exactly `MaxPayload` bytes: the two bounds are
      reached, and together. */
  lemma MaxPayloadIsReached(f: Family, caps: Caps) returns (ds: seq<Datagram>)
    requires NonZero(caps)
    ensures CanBeHandedOff(f, caps, ds) && |ds| == caps.limits.maxDatagrams && Payload(ds) == MaxPayload(caps)
  {
    var sizes := FindFullSizes(caps);
    var d: Data := seq(Weight(f, sizes), _ => 0);
    BatchFromIsHandedOff(f, caps, sizes, d);
    ds := BatchFrom(f, sizes, d);
  }

  /** No run with these caps hands off more payload than the ceiling. */
  ghost predicate BatchesFit(f: Family, caps: Caps, ceiling: int) {
    forall ds: seq<Datagram> :: CanBeHandedOff(f, caps, ds) ==> Payload(ds) <= ceiling
  }

  /** The payload of every run stays within a ceiling if and only if `MaxPayload` does. */
  lemma BatchesFitIff(f: Family, caps: Caps, ceiling: int)
    requires NonZero(caps)
    ensures BatchesFit(f, caps, ceiling) <==> MaxPayload(caps) <= ceiling
  {
    if MaxPayload(caps) <= ceiling {
      forall ds: seq<Datagram> | CanBeHandedOff(f, caps, ds) ensures Payload(ds) <= ceiling {
        HandedOffIsWithin(f, caps, ds);
      }
    } else {
      var ds := MaxPayloadIsReached(f, caps);
    }
  }

  // ---- Counting ----

  /** Byte strings as numbers, a leading one keeping lengths apart. */
  ghost function Number(s: Data): nat { Pow256(|s|) + FromOctets(s) }

  lemma {:induction false} Pow256Monotone(m: nat, n: nat)
    requires m <= n
    ensures Pow256(m) <= Pow256(n)
  {
    if m == n {
    } else {
      Pow256Monotone(m, n - 1);
    }
  }

  lemma NumberBelow(s: Data, ceiling: nat)
    requires |s| <= ceiling
    ensures Number(s) < 2 * Pow256(ceiling)
  {
    FromOctetsRoundTrip(s);
    Pow256Monotone(|s|, ceiling);
  }

  lemma NumberInjective(s: Data, t: Data)
    requires Number(s) == Number(t)
    ensures s == t
  {
    FromOctetsRoundTrip(s);
    FromOctetsRoundTrip(t);
    if |s| < |t| {
      Pow256Monotone(|s| + 1, |t|);
    } else if |t| < |s| {
      Pow256Monotone(|t| + 1, |s|);
    }
  }

  /** The number of the x-th batch of these sizes, encoded. */
  ghost function EncodedNumber(f: Family, c: Codec, sizes: seq<nat>, x: nat): nat {
    Number(c.encode(Envelope.Batch(BatchFrom(f, sizes, Octets(Weight(f, sizes), x)))))
  }

  lemma EncodedNumberInjective(f: Family, c: Codec, sizes: seq<nat>, x: nat, y: nat)
    requires Invertible(c) && x < Pow256(Weight(f, sizes)) && y < Pow256(Weight(f, sizes))
    requires EncodedNumber(f, c, sizes, x) == EncodedNumber(f, c, sizes, y)
    ensures x == y
  {
    var w := Weight(f, sizes);
    var a, b := Envelope.Batch(BatchFrom(f, sizes, Octets(w, x))), Envelope.Batch(BatchFrom(f, sizes, Octets(w, y)));
    NumberInjective(c.encode(a), c.encode(b));
    assert c.decode(c.encode(a)) == Some(a) && c.decode(c.encode(b)) == Some(b);
    BatchFromInjective(f, sizes, Octets(w, x), Octets(w, y));
    OctetsRoundTrip(w, x);
    OctetsRoundTrip(w, y);
  }

  ghost function Numbering(f: Family, c: Codec, sizes: seq<nat>): nat -> nat { x => EncodedNumber(f, c, sizes, x) }

  lemma NumberingInjective(f: Family, c: Codec, sizes: seq<nat>)
    requires Invertible(c)
    ensures InjectiveBelow(Numbering(f, c, sizes), Pow256(Weight(f, sizes)))
  {
    forall i: nat, j: nat | i < j < Pow256(Weight(f, sizes))
      ensures Numbering(f, c, sizes)(i) != Numbering(f, c, sizes)(j)
    {
      if EncodedNumber(f, c, sizes, i) == EncodedNumber(f, c, sizes, j) {
        EncodedNumberInjective(f, c, sizes, i, j);
      }
    }
  }

  ghost predicate AllEncodeWithin(f: Family, c: Codec, sizes: seq<nat>, ceiling: nat) {
    forall d: Data :: |d| == Weight(f, sizes) ==> |c.encode(Envelope.Batch(BatchFrom(f, sizes, d)))| <= ceiling
  }

  lemma EncodedNumberBelow(f: Family, c: Codec, sizes: seq<nat>, ceiling: nat, x: nat)
    requires AllEncodeWithin(f, c, sizes, ceiling)
    ensures EncodedNumber(f, c, sizes, x) < 2 * Pow256(ceiling)
  {
    NumberBelow(c.encode(Envelope.Batch(BatchFrom(f, sizes, Octets(Weight(f, sizes), x)))), ceiling);
  }

  /** No invertible codec writes all batches of some sizes in fewer bytes than their peers and payloads have. */
  lemma TooManyToFit(f: Family, c: Codec, sizes: seq<nat>, ceiling: nat)
    requires Invertible(c) && AllEncodeWithin(f, c, sizes, ceiling)
    ensures Weight(f, sizes) <= ceiling
  {
    var w := Weight(f, sizes);
    NumberingInjective(f, c, sizes);
    forall i: nat | i < Pow256(w) ensures Numbering(f, c, sizes)(i) < 2 * Pow256(ceiling) {
      EncodedNumberBelow(f, c, sizes, ceiling, i);
    }
    Pigeonhole(Numbering(f, c, sizes), Pow256(w), 2 * Pow256(ceiling));
    PowersApart(w, ceiling);
  }

  lemma PowersApart(w: nat, ceiling: nat)
    requires Pow256(w) <= 2 * Pow256(ceiling)
    ensures w <= ceiling
  {
    if w > ceiling {
      Pow256Monotone(ceiling + 1, w);
    }
  }

  // ---- When frames fit ----

  /** For every invertible codec: frames fit only if the largest batch, with its peers, is within the ceiling. */
  lemma FramesNeedRoom(f: Family, caps: Caps, c: Codec)
    requires NonZero(caps) && Invertible(c) && FramesFit(f, caps, c)
    ensures MaxPayload(caps) + PeerWidth(f) * caps.limits.maxDatagrams <= MAX_ENVELOPE_FRAME
  {
    var sizes := FindFullSizes(caps);
    forall d: Data | |d| == Weight(f, sizes)
      ensures |c.encode(Envelope.Batch(BatchFrom(f, sizes, d)))| <= MAX_ENVELOPE_FRAME
    {
      BatchFromIsHandedOff(f, caps, sizes, d);
      assert Encodable(c, Envelope.Batch(BatchFrom(f, sizes, d)));
    }
    TooManyToFit(f, c, sizes, MAX_ENVELOPE_FRAME);
    WeightIs(f, sizes);
  }

  ghost predicate Monotone(overhead: nat -> nat) { forall m: nat, n: nat :: m <= n ==> overhead(m) <= overhead(n) }

  /** Frames fit for a codec that adds at most some overhead for the number of datagrams, to the batches that are within
      the bounds of the caps, if that much room is left. */
  lemma FramesFitWithOverhead(f: Family, caps: Caps, c: Codec, overhead: nat -> nat)
    requires NonZero(caps) && Monotone(overhead)
    requires forall ds :: WithinBounds(caps, ds) ==> |c.encode(Envelope.Batch(ds))| <= Payload(ds) + overhead(|ds|)
    requires MaxPayload(caps) + overhead(caps.limits.maxDatagrams) <= MAX_ENVELOPE_FRAME
    ensures FramesFit(f, caps, c)
  {
    forall ds: seq<Datagram> | CanBeHandedOff(f, caps, ds) ensures Encodable(c, Envelope.Batch(ds)) {
      HandedOffIsWithin(f, caps, ds);
      assert overhead(|ds|) <= overhead(caps.limits.maxDatagrams);
    }
  }

  /** And for a codec that adds exactly that overhead, frames fit if and only if that much room is left. */
  lemma FramesFitIff(f: Family, caps: Caps, c: Codec, overhead: nat -> nat)
    requires NonZero(caps) && Monotone(overhead)
    requires forall ds :: WithinBounds(caps, ds) ==> |c.encode(Envelope.Batch(ds))| == Payload(ds) + overhead(|ds|)
    ensures FramesFit(f, caps, c) <==> MaxPayload(caps) + overhead(caps.limits.maxDatagrams) <= MAX_ENVELOPE_FRAME
  {
    if MaxPayload(caps) + overhead(caps.limits.maxDatagrams) <= MAX_ENVELOPE_FRAME {
      FramesFitWithOverhead(f, caps, c, overhead);
    } else {
      var ds := MaxPayloadIsReached(f, caps);
      HandedOffIsWithin(f, caps, ds);
      assert !Encodable(c, Envelope.Batch(ds));
    }
  }

  // ---- The configuration check ----

  /** What the check demands of the caps, the queue depth and the receive buffer. */
  predicate ValidCaps(caps: Caps, queueDepth: U32, recvBufferBytes: U32) {
    && caps.maxDatagramBytes != 0 && caps.limits.maxDatagrams != 0 && caps.limits.maxBytes != 0
    && queueDepth != 0 && recvBufferBytes != 0
    && caps.maxDatagramBytes <= 65507
    && caps.maxDatagramBytes <= caps.limits.maxBytes <= MAX_ENVELOPE_FRAME
  }

  const DEFAULT_CAPS := Caps(Limits(512, 61440, 20), 8192)

  /** The default caps pass the check, yet with every invertible codec some run hands off a batch that is too large to
      encode. */
  lemma DefaultCapsOverflowTheFrame(f: Family, c: Codec) returns (ds: seq<Datagram>)
    requires Invertible(c)
    ensures ValidCaps(DEFAULT_CAPS, 4096, 8388608) && MaxPayload(DEFAULT_CAPS) == 69631 > MAX_ENVELOPE_FRAME
    ensures CanBeHandedOff(f, DEFAULT_CAPS, ds) && Encode(c, Envelope.Batch(ds)) == Err(TooLarge)
  {
    if FramesFit(f, DEFAULT_CAPS, c) {
      FramesNeedRoom(f, DEFAULT_CAPS, c);
    }
    ds :| CanBeHandedOff(f, DEFAULT_CAPS, ds) && !Encodable(c, Envelope.Batch(ds));
  }

  /** Keeping the payload alone within the ceiling is not enough either: these caps pass the check and never exceed
      65535 bytes of payload, and still no invertible codec fits all their batches. */
  lemma PayloadWithinCeilingIsNotEnough(f: Family, c: Codec)
    requires Invertible(c)
    ensures var caps := Caps(Limits(512, 57344, 20), 8192);
            ValidCaps(caps, 4096, 8388608) && MaxPayload(caps) == 65535 <= MAX_ENVELOPE_FRAME && !FramesFit(f, caps, c)
  {
    var caps := Caps(Limits(512, 57344, 20), 8192);
    if FramesFit(f, caps, c) {
      FramesNeedRoom(f, caps, c);
    }
  }
}
