/** The ingress wire protocol (src/ingress/protocol.rs): a five-byte preamble, length-prefixed frames with a ceiling,
    and the fixed-size peer address. The payload codec is a parameter. */
module Protocol {
  import opened Bytes
  import opened Net

  const LENGTH_PREFIX_SIZE: nat := 4
  const MAX_ENVELOPE_FRAME: nat := 65536
  const PROTOCOL_MAGIC: Data := [82, 68, 73, 71]
  const PROTOCOL_VERSION: Byte := 1
  const PREAMBLE_LEN: nat := 5

  datatype SocketAddr = SocketAddr(ip: IpAddr, port: U16)

  type Ip16 = d: Data | |d| == 16 witness Octets(16, 0)

  datatype Peer = Peer(ip: Ip16, port: U16)

  datatype Datagram = Datagram(peer: Peer, recvAtUnixNanos: U64, payload: Data)

  datatype Envelope =
    | Hello(ingressId: Data, worker: U16)
    | Batch(datagrams: seq<Datagram>)
    | Open(peer: Peer)

  datatype Error = TooLarge | TooShort | Truncated | BadPayload | ReadLength | ReadPayload | ShortPreamble | BadMagic

  /** The payload codec; a decode error and a decode panic both count as no result. */
  datatype Codec = Codec(encode: Envelope -> Data, decode: Data -> Option<Envelope>)

  ghost predicate Invertible(c: Codec) {
    forall e: Envelope :: c.decode(c.encode(e)) == Some(e)
  }

  // ---- Peer addresses ----

  function FromSocketAddr(a: SocketAddr): Peer { Peer(Octets(16, Wide(a.ip)), a.port) }

  function ToSocketAddr(p: Peer): SocketAddr {
    FromOctetsRoundTrip(p.ip);
    Pow256Widths();
    SocketAddr(Canonical(V6(FromOctets(p.ip))), p.port)
  }

  /** The consumer sees the canonical form of the sender's address, which is the address itself exactly when it is not
      an IPv4-mapped IPv6 one. */
  lemma PeerRoundTrip(a: SocketAddr)
    ensures ToSocketAddr(FromSocketAddr(a)) == SocketAddr(Canonical(a.ip), a.port)
    ensures ToSocketAddr(FromSocketAddr(a)) == a <==> !IsMapped(a.ip)
  {
    Pow256Widths();
    OctetsRoundTrip(16, Wide(a.ip));
  }

  /** And every 16-byte peer comes back unchanged from its socket address. */
  lemma PeerFromItsAddress(p: Peer)
    ensures FromSocketAddr(ToSocketAddr(p)) == p
  {
    FromOctetsRoundTrip(p.ip);
  }

  /** On the wire an IPv4 peer is ten zero bytes, two of 255 and its four octets; an IPv6 one its sixteen. */
  lemma PeerOnTheWire(a: SocketAddr)
    ensures FromSocketAddr(a).port == a.port
    ensures a.ip.V6? ==> FromSocketAddr(a).ip == Octets(16, a.ip.v6)
    ensures a.ip.V4? ==> FromSocketAddr(a).ip == [0, 0, 0, 0, 0, 0, 0, 0, 0, 0] + [255, 255] + Octets(4, a.ip.v4)
  {
    if a.ip.V4? {
      Pow256Widths();
      OctetsSplit(12, 4, MAPPED_HIGH, a.ip.v4);
      MappedPrefix();
    }
  }

  lemma MappedPrefix()
    ensures Octets(12, 0xffff) == [0, 0, 0, 0, 0, 0, 0, 0, 0, 0] + [255, 255]
  {
    assert Pow256(2) == 0x1_0000;
    OctetsSplit(10, 2, 0, 0xffff);
    ZeroOctets(10);
    assert Octets(1, 255) == [] + [255] && Octets(2, 0xffff) == Octets(1, 255) + [255];
  }

  lemma {:induction false} ZeroOctets(n: nat)
    ensures forall i :: 0 <= i < n ==> Octets(n, 0)[i] == 0
  {
    if n == 0 {
    } else {
      ZeroOctets(n - 1);
    }
  }

  // ---- Frames ----

  function Frame(payload: Data): Data { Octets(LENGTH_PREFIX_SIZE, |payload|) + payload }

  /** On the wire: four bytes that give the length, the most significant first, and then the payload. */
  lemma FrameOnTheWire(payload: Data)
    requires |payload| < U32_SIZE
    ensures var f, n := Frame(payload), |payload|;
            && |f| == 4 + n && f[4..] == payload
            && f[0] == n / 0x100_0000 && f[1] == n / 0x1_0000 % 256 && f[2] == n / 256 % 256 && f[3] == n % 256
  {
    FourOctets(|payload|);
    assert Frame(payload)[4..] == payload;
  }

  lemma FourOctets(n: nat)
    ensures Octets(4, n) == [n / 0x100_0000 % 256, n / 0x1_0000 % 256, n / 256 % 256, n % 256]
  {
    var a, b, c := n / 256, n / 256 / 256, n / 256 / 256 / 256;
    assert Octets(1, c) == [] + [c % 256];
    assert Octets(2, b) == Octets(1, c) + [b % 256];
    assert Octets(3, a) == Octets(2, b) + [a % 256];
    assert Octets(4, n) == Octets(3, a) + [n % 256];
  }

  predicate Encodable(c: Codec, e: Envelope) { |c.encode(e)| <= MAX_ENVELOPE_FRAME }

  function Encode(c: Codec, e: Envelope): Result<Data, Error> {
    var payload := c.encode(e);
    if |payload| > MAX_ENVELOPE_FRAME then Err(TooLarge) else Ok(Frame(payload))
  }

  function DecodePayload(c: Codec, payload: Data): Result<Envelope, Error> {
    match c.decode(payload)
    case Some(e) => Ok(e)
    case None => Err(BadPayload)
  }

  function Decode(c: Codec, buf: Data): Result<Envelope, Error> {
    if |buf| < LENGTH_PREFIX_SIZE then Err(TooShort)
    else
      var len := FromOctets(buf[..LENGTH_PREFIX_SIZE]);
      if len > MAX_ENVELOPE_FRAME then Err(TooLarge)
      else if |buf| < LENGTH_PREFIX_SIZE + len then Err(Truncated)
      else DecodePayload(c, buf[LENGTH_PREFIX_SIZE..LENGTH_PREFIX_SIZE + len])
  }

  /** Reading one frame off the front of a stream: the result, and how many bytes were taken. */
  function ReadFrom(c: Codec, s: Data): (Result<Envelope, Error>, nat) {
    if |s| < LENGTH_PREFIX_SIZE then (Err(ReadLength), |s|)
    else
      var len := FromOctets(s[..LENGTH_PREFIX_SIZE]);
      if len > MAX_ENVELOPE_FRAME then (Err(TooLarge), LENGTH_PREFIX_SIZE)
      else if |s| - LENGTH_PREFIX_SIZE < len then (Err(ReadPayload), |s|)
      else (DecodePayload(c, s[LENGTH_PREFIX_SIZE..LENGTH_PREFIX_SIZE + len]), LENGTH_PREFIX_SIZE + len)
  }

  /** The byte streams the protocol runs over. A read of more than is left takes what is left and fails. */
  class Reader {
    const data: Data
    var pos: nat

    ghost predicate Valid() reads this { pos <= |data| }

    constructor (data: Data)
      ensures Valid() && this.data == data && pos == 0
    {
      this.data, pos := data, 0;
    }

    method ReadExact(n: nat) returns (ok: bool, bytes: Data)
      requires Valid()
      modifies this
      ensures Valid()
      ensures ok <==> old(pos) + n <= |data|
      ensures ok ==> pos == old(pos) + n && bytes == data[old(pos)..pos]
      ensures !ok ==> pos == |data|
    {
      ok := pos + n <= |data|;
      bytes := if ok then data[pos..pos + n] else [];
      pos := if ok then pos + n else |data|;
    }
  }

  class Writer {
    var data: Data

    method WriteAll(bytes: Data)
      modifies this
      ensures data == old(data) + bytes
    {
      data := data + bytes;
    }
  }

  method ReadFrame(c: Codec, r: Reader) returns (e: Result<Envelope, Error>)
    requires r.Valid()
    modifies r
    ensures r.Valid()
    ensures (e, r.pos - old(r.pos)) == ReadFrom(c, r.data[old(r.pos)..])
  {
    ghost var rest := r.data[r.pos..];
    var ok, prefix := r.ReadExact(LENGTH_PREFIX_SIZE);
    if !ok {
      return Err(ReadLength);
    }
    assert prefix == rest[..LENGTH_PREFIX_SIZE];
    var len := FromOctets(prefix);
    if len > MAX_ENVELOPE_FRAME {
      return Err(TooLarge);
    }
    var got, payload := r.ReadExact(len);
    if !got {
      return Err(ReadPayload);
    }
    assert payload == rest[LENGTH_PREFIX_SIZE..LENGTH_PREFIX_SIZE + len];
    return DecodePayload(c, payload);
  }

  /** An envelope over the ceiling is refused and nothing is written. */
  method WriteFrame(c: Codec, w: Writer, e: Envelope) returns (r: Result<(), Error>)
    modifies w
    ensures r.Ok? <==> Encodable(c, e)
    ensures w.data == old(w.data) + if r.Ok? then Frame(c.encode(e)) else []
  {
    var frame := Encode(c, e);
    if frame.Err? {
      return Err(frame.error);
    }
    w.WriteAll(frame.value);
    return Ok(());
  }

  method WritePreamble(w: Writer)
    modifies w
    ensures w.data == old(w.data) + PROTOCOL_MAGIC + [PROTOCOL_VERSION]
  {
    w.WriteAll(PROTOCOL_MAGIC + [PROTOCOL_VERSION]);
    assert old(w.data) + (PROTOCOL_MAGIC + [PROTOCOL_VERSION]) == old(w.data) + PROTOCOL_MAGIC + [PROTOCOL_VERSION];
  }

  /** Succeeds exactly on the magic followed by some version byte, which it returns. */
  method ReadPreamble(r: Reader) returns (version: Result<Byte, Error>)
    requires r.Valid()
    modifies r
    ensures r.Valid()
    ensures version.Ok?
            <==> old(r.pos) + PREAMBLE_LEN <= |r.data| && r.data[old(r.pos)..old(r.pos) + 4] == PROTOCOL_MAGIC
    ensures version.Ok? ==> r.pos == old(r.pos) + PREAMBLE_LEN && version.value == r.data[r.pos - 1]
    ensures version.Err? ==>
              version.error == if old(r.pos) + PREAMBLE_LEN > |r.data| then ShortPreamble else BadMagic
  {
    var ok, bytes := r.ReadExact(PREAMBLE_LEN);
    if !ok {
      return Err(ShortPreamble);
    }
    assert bytes[..4] == r.data[old(r.pos)..old(r.pos) + 4];
    if bytes[..4] != PROTOCOL_MAGIC {
      return Err(BadMagic);
    }
    return Ok(bytes[4]);
  }

  // ---- Round trips ----

  function WriteMany(c: Codec, es: seq<Envelope>): Data {
    if es == [] then [] else Frame(c.encode(es[0])) + WriteMany(c, es[1..])
  }

  /** Reading n frames in a row: the envelopes and the bytes left over, or nothing if one read fails. */
  function ReadMany(c: Codec, s: Data, n: nat): Option<(seq<Envelope>, Data)> {
    if n == 0 then Some(([], s))
    else
      var (e, used) := ReadFrom(c, s);
      if e.Err? || used > |s| then None
      else match ReadMany(c, s[used..], n - 1)
           case None => None
           case Some((es, rest)) => Some(([e.value] + es, rest))
  }

  /** A frame is read back whatever follows it, taking exactly its own bytes; `Decode` gives the same envelope. */
  lemma FrameRoundTrip(c: Codec, e: Envelope, tail: Data)
    requires Invertible(c) && Encodable(c, e)
    ensures ReadFrom(c, Frame(c.encode(e)) + tail) == (Ok(e), |Frame(c.encode(e))|)
    ensures Decode(c, Frame(c.encode(e)) + tail) == Ok(e)
  {
    var payload := c.encode(e);
    var s := Frame(payload) + tail;
    Pow256Widths();
    OctetsRoundTrip(LENGTH_PREFIX_SIZE, |payload|);
    assert s[..LENGTH_PREFIX_SIZE] == Octets(LENGTH_PREFIX_SIZE, |payload|);
    assert s[LENGTH_PREFIX_SIZE..LENGTH_PREFIX_SIZE + |payload|] == payload;
  }

  /** Any list of encodable envelopes written back to back and read frame by frame comes back as it was, with every
      byte of it taken and not one byte more. */
  lemma {:induction false} StreamRoundTrip(c: Codec, es: seq<Envelope>, tail: Data)
    requires Invertible(c) && forall e :: e in es ==> Encodable(c, e)
    ensures ReadMany(c, WriteMany(c, es) + tail, |es|) == Some((es, tail))
  {
    if es == [] {
      assert WriteMany(c, es) + tail == tail;
    } else {
      var rest := WriteMany(c, es[1..]) + tail;
      assert WriteMany(c, es) + tail == Frame(c.encode(es[0])) + rest;
      FrameRoundTrip(c, es[0], rest);
      assert (Frame(c.encode(es[0])) + rest)[|Frame(c.encode(es[0]))|..] == rest;
      StreamRoundTrip(c, es[1..], tail);
      assert es == [es[0]] + es[1..];
    }
  }

  /** On every byte string whatsoever, slice decoding and stream reading accept the same inputs with the same result,
      and a declared length over the ceiling is refused having taken the prefix only. */
  lemma DecodeAgreesWithRead(c: Codec, s: Data)
    ensures Decode(c, s).Ok? <==> ReadFrom(c, s).0.Ok?
    ensures Decode(c, s).Ok? ==> Decode(c, s) == ReadFrom(c, s).0
    ensures |s| >= LENGTH_PREFIX_SIZE && FromOctets(s[..LENGTH_PREFIX_SIZE]) > MAX_ENVELOPE_FRAME ==>
              Decode(c, s) == Err(TooLarge) && ReadFrom(c, s) == (Err(TooLarge), LENGTH_PREFIX_SIZE)
    ensures ReadFrom(c, s).1 <= |s|
  {
  }

  /** Why a byte string is refused, by the length it declares and the bytes there are; and what is taken of a stream
      then: all of it when it is too short, the prefix when it declares too much, the frame when its payload is no
      envelope. */
  lemma RefusedExactly(c: Codec, s: Data)
    ensures Decode(c, s) == Err(TooShort) <==> |s| < 4
    ensures ReadFrom(c, s) == (Err(ReadLength), |s|) <==> |s| < 4
    ensures |s| >= 4 ==>
              var n := FromOctets(s[..4]);
              && (Decode(c, s) == Err(TooLarge) <==> n > 65536)
              && (ReadFrom(c, s) == (Err(TooLarge), 4) <==> n > 65536)
              && (Decode(c, s) == Err(Truncated) <==> n <= 65536 && |s| < 4 + n)
              && (ReadFrom(c, s) == (Err(ReadPayload), |s|) <==> n <= 65536 && |s| < 4 + n)
              && (n <= 65536 && |s| >= 4 + n ==>
                    && ReadFrom(c, s).1 == 4 + n && ReadFrom(c, s).0 == Decode(c, s)
                    && Decode(c, s) == match c.decode(s[4..4 + n])
                                       case Some(e) => Ok(e)
                                       case None => Err(BadPayload))
  {
  }
}
