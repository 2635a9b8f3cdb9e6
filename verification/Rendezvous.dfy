/** Stable hashing of (client, backend) pairs and weighted rendezvous scores (src/balancer/rendezvous.rs).

    Scores are exact reals and the logarithm is a parameter: `cost(hash)` stands for -ln((hash + 0.5) / 2^64), a
    positive and strictly decreasing function of the hash. */
module Rendezvous {
  import opened Bytes
  import opened Net

  type Id = Data

  const FNV_OFFSET_BASIS: U64 := 0xcbf2_9ce4_8422_2325
  const FNV_PRIME: int := 0x0000_0100_0000_01b3

  const IPV4_TAG: Byte := 4
  const IPV6_TAG: Byte := 6

  /** Bitwise exclusive or. */
  function Xor(x: nat, y: nat): nat
    decreases x + y
  {
    if x == 0 && y == 0 then 0 else 2 * Xor(x / 2, y / 2) + (x % 2 + y % 2) % 2
  }

  lemma {:induction false} XorBound(n: nat, x: nat, y: nat)
    requires x < Pow2(n) && y < Pow2(n)
    ensures Xor(x, y) < Pow2(n)
  {
    if x == 0 && y == 0 {
    } else {
      XorBound(n - 1, x / 2, y / 2);
    }
  }

  lemma {:induction false} XorCancels(x: nat, y: nat, m: nat)
    requires Xor(x, m) == Xor(y, m)
    ensures x == y
    decreases x + y + m
  {
    if x == 0 && y == 0 && m == 0 {
    } else {
      XorHalves(x, m);
      XorHalves(y, m);
      XorCancels(x / 2, y / 2, m / 2);
      LowBitCancels(x % 2, y % 2, m % 2);
    }
  }

  lemma LowBitCancels(a: nat, b: nat, m: nat)
    requires a < 2 && b < 2 && (a + m) % 2 == (b + m) % 2
    ensures a == b
  {
  }

  lemma XorHalves(x: nat, y: nat)
    ensures Xor(x, y) / 2 == Xor(x / 2, y / 2) && Xor(x, y) % 2 == (x % 2 + y % 2) % 2
  {
  }

  lemma {:induction false} XorCommutes(x: nat, y: nat)
    ensures Xor(x, y) == Xor(y, x)
    decreases x + y
  {
    if x == 0 && y == 0 {
    } else {
      XorCommutes(x / 2, y / 2);
    }
  }

  function Fnv1aStep(acc: U64, b: Byte): U64 {
    Xor(acc, b) * FNV_PRIME % U64_SIZE
  }

  /** Folds bytes into an accumulator, first byte first. */
  function Fnv1aUpdate(hash: U64, bytes: Data): U64 {
    if bytes == [] then hash else Fnv1aStep(Fnv1aUpdate(hash, bytes[..|bytes| - 1]), bytes[|bytes| - 1])
  }

  /** An IPv4-mapped client is folded to IPv4 first; a tag keeps the families apart. */
  function Seed(client: IpAddr): U64 {
    match Canonical(client)
    case V4(v4) => Fnv1aUpdate(Fnv1aUpdate(FNV_OFFSET_BASIS, [IPV4_TAG]), Octets(4, v4))
    case V6(v6) => Fnv1aUpdate(Fnv1aUpdate(FNV_OFFSET_BASIS, [IPV6_TAG]), Octets(16, v6))
  }

  function HashPair(client: IpAddr, id: Id): U64 { Fnv1aUpdate(Seed(client), id) }

  /** The multiplier is odd, so multiplying by it modulo 2^64 can be undone: it has the inverse 0xce965057aff6957b. */
  lemma MultiplicationInjective(x: U64, y: U64)
    requires x * FNV_PRIME % U64_SIZE == y * FNV_PRIME % U64_SIZE
    ensures x == y
  {
    var q := x * FNV_PRIME / U64_SIZE - y * FNV_PRIME / U64_SIZE;
    assert (x - y) * FNV_PRIME == q * U64_SIZE;
    assert FNV_PRIME * 0xce965057aff6957b == 1 + 0xce9650590f * U64_SIZE;
    assert x - y == U64_SIZE * (q * 0xce965057aff6957b - (x - y) * 0xce9650590f);
  }

  lemma WordXorByte(x: U64, b: Byte)
    ensures Xor(x, b) < U64_SIZE
  {
    Pow2Of64();
    XorBound(64, x, b);
  }

  /** Each step is injective in the accumulator for a fixed byte, and in the byte for a fixed accumulator. */
  lemma StepInjective(x: U64, y: U64, a: Byte, b: Byte)
    ensures Fnv1aStep(x, a) == Fnv1aStep(y, a) ==> x == y
    ensures Fnv1aStep(x, a) == Fnv1aStep(x, b) ==> a == b
  {
    WordXorByte(x, a);
    WordXorByte(y, a);
    WordXorByte(x, b);
    if Fnv1aStep(x, a) == Fnv1aStep(y, a) {
      MultiplicationInjective(Xor(x, a), Xor(y, a));
      XorCancels(x, y, a);
    }
    if Fnv1aStep(x, a) == Fnv1aStep(x, b) {
      MultiplicationInjective(Xor(x, a), Xor(x, b));
      XorCommutes(x, a);
      XorCommutes(x, b);
      XorCancels(a, b, x);
    }
  }

  lemma {:induction false} UpdateInjective(x: U64, y: U64, bytes: Data)
    requires Fnv1aUpdate(x, bytes) == Fnv1aUpdate(y, bytes)
    ensures x == y
  {
    if bytes == [] {
    } else {
      var n := |bytes| - 1;
      StepInjective(Fnv1aUpdate(x, bytes[..n]), Fnv1aUpdate(y, bytes[..n]), bytes[n], bytes[n]);
      UpdateInjective(x, y, bytes[..n]);
    }
  }

  lemma {:induction false} UpdateSplit(x: U64, a: Data, b: Data)
    ensures Fnv1aUpdate(x, a + b) == Fnv1aUpdate(Fnv1aUpdate(x, a), b)
  {
    if b == [] {
      assert a + b == a;
    } else {
      UpdateSplit(x, a, b[..|b| - 1]);
      assert (a + b)[..|a + b| - 1] == a + b[..|b| - 1];
    }
  }

  /** Byte strings that differ in exactly one byte fold differently. */
  lemma OneByteApartFoldApart(seed: U64, front: Data, a: Byte, b: Byte, back: Data)
    requires a != b
    ensures Fnv1aUpdate(seed, front + [a] + back) != Fnv1aUpdate(seed, front + [b] + back)
  {
    var x := Fnv1aUpdate(seed, front);
    UpdateSplit(seed, front + [a], back);
    UpdateSplit(seed, front + [b], back);
    assert (front + [a])[..|front|] == front && (front + [b])[..|front|] == front;
    if Fnv1aUpdate(Fnv1aStep(x, a), back) == Fnv1aUpdate(Fnv1aStep(x, b), back) {
      UpdateInjective(Fnv1aStep(x, a), Fnv1aStep(x, b), back);
      StepInjective(x, x, a, b);
    }
  }

  /** Ids that differ in exactly one byte hash differently for every client. */
  lemma OneByteApartHashApart(client: IpAddr, front: Data, a: Byte, b: Byte, back: Data)
    requires a != b
    ensures HashPair(client, front + [a] + back) != HashPair(client, front + [b] + back)
  {
    OneByteApartFoldApart(Seed(client), front, a, b, back);
  }

  /** What the hash takes of a client: four octets after a 4, or sixteen after a 6, of its canonical address. */
  function ClientBytes(client: IpAddr): Data {
    match Canonical(client)
    case V4(v4) => [4] + Octets(4, v4)
    case V6(v6) => [6] + Octets(16, v6)
  }

  /** The hash of a pair is the FNV-1a fold of the client's bytes and the id's, as one byte string. */
  lemma HashIsOneFold(client: IpAddr, id: Id)
    ensures HashPair(client, id) == Fnv1aUpdate(FNV_OFFSET_BASIS, ClientBytes(client) + id)
  {
    UpdateSplit(FNV_OFFSET_BASIS, ClientBytes(client), id);
    match Canonical(client)
    case V4(v4) => UpdateSplit(FNV_OFFSET_BASIS, [4], Octets(4, v4));
    case V6(v6) => UpdateSplit(FNV_OFFSET_BASIS, [6], Octets(16, v6));
  }

  /** Clients whose bytes differ in exactly one octet hash differently for every id. */
  lemma OneOctetApartHashApart(x: IpAddr, y: IpAddr, front: Data, a: Byte, b: Byte, back: Data, id: Id)
    requires a != b && ClientBytes(x) == front + [a] + back && ClientBytes(y) == front + [b] + back
    ensures HashPair(x, id) != HashPair(y, id)
  {
    HashIsOneFold(x, id);
    HashIsOneFold(y, id);
    OneByteApartFoldApart(FNV_OFFSET_BASIS, front, a, b, back + id);
    Assoc(front + [a], back, id);
    Assoc(front + [b], back, id);
  }

  lemma {:induction false} XorZero(x: nat)
    ensures Xor(x, 0) == x
  {
    if x == 0 {
    } else {
      XorZero(x / 2);
    }
  }

  lemma XorDigit(x: nat, b: nat, y: nat, d: nat)
    requires b < 2 && d < 2
    ensures Xor(2 * x + b, 2 * y + d) == 2 * Xor(x, y) + (b + d) % 2
  {
  }

  lemma TimesPrime()
    ensures 0xcbf29ce484222344 * FNV_PRIME % U64_SIZE == 0xaf63dc4c8601ec8c
  {
    assert 0xcbf29ce484222344 * FNV_PRIME == 0xcbf29ce5de * U64_SIZE + 0xaf63dc4c8601ec8c;
  }

  /** The published FNV-1a value of the one-letter string "a". */
  lemma KnownValue()
    ensures Fnv1aUpdate(FNV_OFFSET_BASIS, [97]) == 0xaf63dc4c8601ec8c
  {
    XorZero(0x197e539c9084446);
    XorDigit(0x197e539c9084446, 0, 0, 1);
    XorDigit(0x32fca739210888c, 1, 1, 1);
    XorDigit(0x65f94e724211119, 0, 3, 0);
    XorDigit(0xcbf29ce48422232, 0, 6, 0);
    XorDigit(0x197e539c90844464, 1, 12, 0);
    XorDigit(0x32fca739210888c9, 0, 24, 0);
    XorDigit(0x65f94e7242111192, 1, 48, 1);
    assert Xor(FNV_OFFSET_BASIS, 97) == 0xcbf29ce484222344;
    TimesPrime();
    assert [97][..0] == [];
  }

  /** A client keeps its hash across plain IPv4 and IPv4-mapped IPv6. */
  lemma MappedClientHashesAlike(v4: U32, id: Id)
    ensures HashPair(V6(Mapped(v4)), id) == HashPair(V4(v4), id)
  {
  }

  // ---- Scores ----

  ghost predicate LogLike(cost: U64 -> real) {
    && (forall x: U64 :: cost(x) > 0.0)
    && (forall x: U64, y: U64 :: x < y ==> cost(x) > cost(y))
  }

  /** -weight / ln(h); a non-positive weight scores zero. */
  function Score(cost: U64 -> real, client: IpAddr, id: Id, weight: real): real
    requires forall x: U64 :: cost(x) > 0.0
  {
    if weight <= 0.0 then 0.0 else weight / cost(HashPair(client, id))
  }

  lemma QuotientsDiffer(w: real, x: real, y: real)
    requires w > 0.0 && x > 0.0 && y > x
    ensures w / x > w / y
  {
    assert w / x - w / y == w * (y - x) / (x * y);
  }

  lemma QuotientGrows(w: real, v: real, x: real)
    requires w <= v && x > 0.0
    ensures w / x <= v / x
  {
    assert v / x - w / x == (v - w) / x;
  }

  lemma CostsDiffer(cost: U64 -> real, x: U64, y: U64)
    requires LogLike(cost) && x != y
    ensures cost(x) != cost(y)
  {
    if x < y {
      assert cost(x) > cost(y);
    } else {
      assert y < x;
      assert cost(y) > cost(x);
    }
  }

  lemma HashesApartScoreApart(cost: U64 -> real, x: U64, y: U64, weight: real)
    requires LogLike(cost) && x != y && weight > 0.0
    ensures weight / cost(x) != weight / cost(y)
  {
    CostsDiffer(cost, x, y);
    var p, q := cost(x), cost(y);
    if p < q {
      QuotientsDiffer(weight, p, q);
    } else {
      QuotientsDiffer(weight, q, p);
    }
  }

  /** Equal-weight scores of backends whose ids are one byte apart never tie. */
  lemma OneByteApartNeverTies(cost: U64 -> real, client: IpAddr, front: Data, a: Byte, b: Byte, back: Data,
                              weight: real)
    requires LogLike(cost) && a != b && weight > 0.0
    ensures Score(cost, client, front + [a] + back, weight) != Score(cost, client, front + [b] + back, weight)
  {
    OneByteApartHashApart(client, front, a, b, back);
    HashesApartScoreApart(cost, HashPair(client, front + [a] + back), HashPair(client, front + [b] + back), weight);
  }
}
