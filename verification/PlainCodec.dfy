/** A payload codec with fixed-width fields: an instance of what `UdpFrames` asks of a codec, so that its results on
    frame sizes speak of something. It writes 34 bytes beside each payload and one for the kind of envelope. */
module PlainCodec {
  import opened Bytes
  import CK = CacheKey
  import opened Net
  import opened Protocol
  import opened UdpBatch
  import opened UdpIngress
  import opened UdpBounds
  import opened UdpFrames

  // ---- Writing ----

  /** A length that does not fit its field is announced by the largest value of the field. */
  const LONG: U64 := U64_MAX

  function PeerField(p: Peer): (r: Data)
    ensures |r| == 18
  {
    p.ip + Octets(2, p.port)
  }

  function Head(d: Datagram): (r: Data)
    ensures |r| == 26
  {
    PeerField(d.peer) + Octets(8, d.recvAtUnixNanos)
  }

  /** The length field of a payload, and what follows it. */
  function LengthOf(payload: Data): U64 { if |payload| < LONG then |payload| else LONG }

  function Rest(payload: Data): Data { if |payload| < LONG then payload else CK.Field(payload) }

  function Body(payload: Data): Data { Octets(8, LengthOf(payload)) + Rest(payload) }

  function Items(ds: seq<Datagram>): Data {
    if ds == [] then [] else Head(ds[0]) + (Body(ds[0].payload) + Items(ds[1..]))
  }

  function Write(e: Envelope): Data {
    match e
    case Hello(id, worker) => [0] + (CK.Field(id) + Octets(2, worker))
    case Open(peer) => [1] + PeerField(peer)
    case Batch(ds) => [2] + Items(ds)
  }

  // ---- Different envelopes are written differently ----

  lemma OctetsInjective(width: nat, x: nat, y: nat)
    requires x < Pow256(width) && y < Pow256(width) && Octets(width, x) == Octets(width, y)
    ensures x == y
  {
    OctetsRoundTrip(width, x);
    OctetsRoundTrip(width, y);
  }

  lemma Widths()
    ensures Pow256(2) == 0x1_0000 && Pow256(8) == U64_SIZE
  {
    assert Pow256(4) == U32_SIZE;
    assert Pow256(8) == 256 * (256 * (256 * (256 * Pow256(4))));
  }

  /** Two joins with first parts of the same length agree part by part. */
  lemma SameParts(a: Data, x: Data, b: Data, y: Data)
    requires |a| == |b| && a + x == b + y
    ensures a == b && x == y
  {
    assert a == (a + x)[..|a|] && b == (b + y)[..|a|];
    assert x == (a + x)[|a|..] && y == (b + y)[|a|..];
  }

  lemma PeerFieldInjective(p: Peer, q: Peer)
    requires PeerField(p) == PeerField(q)
    ensures p == q
  {
    SameParts(p.ip, Octets(2, p.port), q.ip, Octets(2, q.port));
    Widths();
    OctetsInjective(2, p.port, q.port);
  }

  lemma HeadInjective(d: Datagram, e: Datagram)
    requires Head(d) == Head(e)
    ensures d.peer == e.peer && d.recvAtUnixNanos == e.recvAtUnixNanos
  {
    SameParts(PeerField(d.peer), Octets(8, d.recvAtUnixNanos), PeerField(e.peer), Octets(8, e.recvAtUnixNanos));
    PeerFieldInjective(d.peer, e.peer);
    Widths();
    OctetsInjective(8, d.recvAtUnixNanos, e.recvAtUnixNanos);
  }

  lemma RestDelimits(a: Data, x: Data, b: Data, y: Data)
    requires LengthOf(a) == LengthOf(b) && Rest(a) + x == Rest(b) + y
    ensures a == b && x == y
  {
    if |a| < LONG {
      SameParts(a, x, b, y);
    } else {
      CK.FieldIsSelfDelimiting(a, b, x, y);
    }
  }

  lemma BodyDelimits(a: Data, x: Data, b: Data, y: Data)
    requires Body(a) + x == Body(b) + y
    ensures a == b && x == y
  {
    var m, n := LengthOf(a), LengthOf(b);
    Assoc(Octets(8, m), Rest(a), x);
    Assoc(Octets(8, n), Rest(b), y);
    SameParts(Octets(8, m), Rest(a) + x, Octets(8, n), Rest(b) + y);
    Widths();
    OctetsInjective(8, m, n);
    RestDelimits(a, x, b, y);
  }

  lemma {:induction false} ItemsInjective(a: seq<Datagram>, b: seq<Datagram>)
    requires Items(a) == Items(b)
    ensures a == b
  {
    if a == [] || b == [] {
    } else {
      var x, y := Items(a[1..]), Items(b[1..]);
      SameParts(Head(a[0]), Body(a[0].payload) + x, Head(b[0]), Body(b[0].payload) + y);
      HeadInjective(a[0], b[0]);
      BodyDelimits(a[0].payload, x, b[0].payload, y);
      ItemsInjective(a[1..], b[1..]);
      assert a == [a[0]] + a[1..] && b == [b[0]] + b[1..];
    }
  }

  lemma WriteInjective(d: Envelope, e: Envelope)
    requires Write(d) == Write(e)
    ensures d == e
  {
    assert Write(d)[0] == Write(e)[0];
    match d
    case Hello(id, worker) =>
      SameParts([0], CK.Field(id) + Octets(2, worker), [0], CK.Field(e.ingressId) + Octets(2, e.worker));
      CK.FieldIsSelfDelimiting(id, e.ingressId, Octets(2, worker), Octets(2, e.worker));
      Widths();
      OctetsInjective(2, worker, e.worker);
    case Open(peer) =>
      SameParts([1], PeerField(peer), [1], PeerField(e.peer));
      PeerFieldInjective(peer, e.peer);
    case Batch(ds) =>
      SameParts([2], Items(ds), [2], Items(e.datagrams));
      ItemsInjective(ds, e.datagrams);
  }

  // ---- The codec ----

  /** The envelope that is written like this, if there is one. */
  ghost function Read(d: Data): Option<Envelope> {
    if exists e: Envelope :: Write(e) == d then
      var e: Envelope :| Write(e) == d;
      Some(e)
    else None
  }

  ghost function Plain(): Codec { Codec(e => Write(e), d => Read(d)) }

  lemma PlainIsInvertible()
    ensures Invertible(Plain())
  {
    forall e: Envelope ensures Plain().decode(Plain().encode(e)) == Some(e) {
      var d := Write(e);
      var r: Envelope :| Write(r) == d && Read(d) == Some(r);
      WriteInjective(r, e);
    }
  }

  // ---- Its overhead ----

  function Overhead(n: nat): nat { 1 + 34 * n }

  lemma {:induction false} PayloadFront(ds: seq<Datagram>)
    requires ds != []
    ensures Payload(ds) == |ds[0].payload| + Payload(ds[1..])
  {
    if |ds| == 1 {
      assert ds[..0] == [] && ds[1..] == [];
    } else {
      var front := ds[..|ds| - 1];
      PayloadFront(front);
      assert front[1..] == ds[1..][..|ds| - 2];
    }
  }

  lemma {:induction false} ItemsLength(ds: seq<Datagram>)
    requires Payload(ds) < LONG
    ensures |Items(ds)| == Payload(ds) + 34 * |ds|
  {
    if ds == [] {
    } else {
      PayloadFront(ds);
      ItemsLength(ds[1..]);
    }
  }

  /** The codec adds exactly this overhead to every batch that is within the bounds of some caps. */
  lemma PlainHasOverhead(caps: Caps, ds: seq<Datagram>)
    requires NonZero(caps) && WithinBounds(caps, ds)
    ensures |Plain().encode(Envelope.Batch(ds))| == Payload(ds) + Overhead(|ds|)
  {
    assert MaxPayload(caps) <= caps.limits.maxBytes - 1 + caps.maxDatagramBytes;
    ItemsLength(ds);
  }

  /** With this codec, which is invertible, every batch of every run fits one frame if and only if the largest payload
      and 34 bytes for each datagram of a full batch leave one byte of the ceiling. */
  lemma PlainFitsIff(f: Family, caps: Caps)
    requires NonZero(caps)
    ensures Invertible(Plain())
    ensures FramesFit(f, caps, Plain())
            <==> MaxPayload(caps) + 34 * caps.limits.maxDatagrams + 1 <= MAX_ENVELOPE_FRAME
  {
    PlainIsInvertible();
    var overhead := (n: nat) => Overhead(n);
    forall ds | WithinBounds(caps, ds) ensures |Plain().encode(Envelope.Batch(ds))| == Payload(ds) + overhead(|ds|) {
      PlainHasOverhead(caps, ds);
    }
    FramesFitIff(f, caps, Plain(), overhead);
  }
}
