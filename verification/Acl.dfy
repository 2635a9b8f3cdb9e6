/** The access list (src/acl.rs): CIDR rules folded to canonical form once, peers folded on each check, deny before
    allow.

    The reference reads every rule and every peer as 128-bit numbers, an IPv4 one standing for its mapped form. */
module Acl {
  import opened Bytes
  import opened Net

  const MAPPED_PREFIX_BITS: nat := 96

  datatype IpNet =
    | Net4(v4: U32, bits4: nat)
    | Net6(v6: U128, bits6: nat)

  /** Prefix lengths as the parser lets them through. */
  predicate ValidNet(n: IpNet) { if n.Net4? then n.bits4 <= 32 else n.bits6 <= 128 }

  type Rule = n: IpNet | ValidNet(n) witness Net4(0, 0)

  /** The leading `bits` of two `width`-bit numbers agree. */
  predicate SamePrefix(width: nat, bits: nat, x: nat, y: nat)
    requires bits <= width
  {
    x / Pow2(width - bits) == y / Pow2(width - bits)
  }

  /** Membership within one address family only. */
  predicate Contains(n: Rule, ip: IpAddr) {
    match (n, ip)
    case (Net4(a, bits), V4(x)) => SamePrefix(32, bits, a, x)
    case (Net6(a, bits), V6(x)) => SamePrefix(128, bits, a, x)
    case _ => false
  }

  function CanonicalizeNet(n: Rule): Rule {
    if n.Net4? || n.bits6 < MAPPED_PREFIX_BITS || !IsMapped(V6(n.v6)) then n
    else Net4(n.v6 % U32_SIZE, n.bits6 - MAPPED_PREFIX_BITS)
  }

  datatype AccessControl = AccessControl(allow: seq<Rule>, deny: seq<Rule>)

  function Folded(rules: seq<Rule>): (r: seq<Rule>)
    ensures |r| == |rules| && forall i :: 0 <= i < |rules| ==> r[i] == CanonicalizeNet(rules[i])
  {
    seq(|rules|, i requires 0 <= i < |rules| => CanonicalizeNet(rules[i]))
  }

  function New(allow: seq<Rule>, deny: seq<Rule>): AccessControl { AccessControl(Folded(allow), Folded(deny)) }

  predicate AnyContains(rules: seq<Rule>, ip: IpAddr) { exists i :: 0 <= i < |rules| && Contains(rules[i], ip) }

  predicate Check(acl: AccessControl, peer: IpAddr) {
    var ip := Canonical(peer);
    if AnyContains(acl.deny, ip) then false
    else if acl.allow != [] && !AnyContains(acl.allow, ip) then false
    else true
  }

  // ---- The reference ----

  /** Membership by 128-bit numbers. */
  predicate WideContains(n: Rule, ip: IpAddr) {
    match n
    case Net4(a, bits) => SamePrefix(128, MAPPED_PREFIX_BITS + bits, Mapped(a), Wide(ip))
    case Net6(a, bits) => SamePrefix(128, bits, a, Wide(ip))
  }

  predicate AnyWide(rules: seq<Rule>, ip: IpAddr) { exists i :: 0 <= i < |rules| && WideContains(rules[i], ip) }

  /** Denied if in the deny set; else, given an allow list, permitted only if in it. */
  predicate Reference(allow: seq<Rule>, deny: seq<Rule>, ip: IpAddr) {
    !AnyWide(deny, ip) && (allow == [] || AnyWide(allow, ip))
  }

  /** A V6 rule shorter than /96 that covers the whole IPv4-mapped block. */
  predicate CoversMappedBlock(n: Rule) {
    n.Net6? && n.bits6 < MAPPED_PREFIX_BITS && SamePrefix(128, n.bits6, n.v6, Mapped(0))
  }

  predicate IsV4(ip: IpAddr) { Canonical(ip).V4? }

  // ---- Arithmetic of prefixes ----

  /** The bit of value 2^k. */
  function Bit(x: nat, k: nat): nat { x / Pow2(k) % 2 }

  lemma HalfAndBit(x: nat, k: nat)
    ensures x / Pow2(k) == 2 * (x / Pow2(k + 1)) + Bit(x, k)
  {
    DivideTwice(x, Pow2(k), 2);
    assert Pow2(k + 1) == Pow2(k) * 2;
  }

  lemma SmallQuotient(x: nat, d: nat)
    requires x < d
    ensures x / d == 0
  {
  }

  /** Two addresses share a prefix exactly when they have the same bits in it, from the top. */
  lemma {:induction false} PrefixIsBits(width: nat, bits: nat, x: nat, y: nat)
    requires bits <= width && x < Pow2(width) && y < Pow2(width)
    ensures SamePrefix(width, bits, x, y) <==> forall k :: width - bits <= k < width ==> Bit(x, k) == Bit(y, k)
  {
    if bits == 0 {
      SmallQuotient(x, Pow2(width));
      SmallQuotient(y, Pow2(width));
    } else {
      var k := width - bits;
      PrefixIsBits(width, bits - 1, x, y);
      HalfAndBit(x, k);
      HalfAndBit(y, k);
    }
  }

  /** At /96 and longer, the mapped block is the IPv4 space with 96 bits in front. */
  lemma LongPrefixInMappedBlock(bits: nat, a: U32, x: U32)
    requires bits <= 32
    ensures SamePrefix(128, MAPPED_PREFIX_BITS + bits, Mapped(a), Mapped(x)) <==> SamePrefix(32, bits, a, x)
  {
    var d := Pow2(32 - bits);
    Pow2Of64();
    Pow2Add(bits, 32 - bits);
    assert U32_SIZE == Pow2(bits) * d;
    MappedOver(d, Pow2(bits), a);
    MappedOver(d, Pow2(bits), x);
  }

  lemma MappedOver(d: nat, e: nat, a: U32)
    requires d > 0 && U32_SIZE == e * d
    ensures Mapped(a) / d == MAPPED_HIGH * e + a / d
  {
    var q, r := a / d, a % d;
    assert Mapped(a) == d * (MAPPED_HIGH * e + q) + r;
    Quotient(Mapped(a), d, MAPPED_HIGH * e + q, r);
  }

  /** A prefix of 96 or more bits pins the high 96 bits. */
  lemma LongPrefixPinsHigh(bits: nat, a: U128, x: U128)
    requires MAPPED_PREFIX_BITS <= bits <= 128 && SamePrefix(128, bits, a, x)
    ensures a / U32_SIZE == x / U32_SIZE
  {
    Pow2Of64();
    Pow2Add(128 - bits, bits - 96);
    DivideTwice(a, Pow2(128 - bits), Pow2(bits - 96));
    DivideTwice(x, Pow2(128 - bits), Pow2(bits - 96));
  }

  /** A prefix shorter than 96 bits cannot tell addresses of the mapped block apart. */
  lemma ShortPrefixIgnoresLow(bits: nat, a: U128, x: U32)
    requires bits < MAPPED_PREFIX_BITS
    ensures SamePrefix(128, bits, a, Mapped(x)) <==> SamePrefix(128, bits, a, Mapped(0))
  {
    Pow2Of64();
    Pow2Add(32, 96 - bits);
    DivideTwice(Mapped(x), U32_SIZE, Pow2(96 - bits));
    DivideTwice(Mapped(0), U32_SIZE, Pow2(96 - bits));
  }

  // ---- One rule ----

  /** What folding does to one rule, for every peer: it keeps its 128-bit meaning except that a V6 rule shorter than /96
      never catches an IPv4 peer, mapped or bare. */
  lemma FoldedRuleMeans(n: Rule, peer: IpAddr)
    ensures Contains(CanonicalizeNet(n), Canonical(peer))
            <==> WideContains(n, peer) && !(IsV4(peer) && CoversMappedBlock(n))
  {
    var ip := Canonical(peer);
    assert Wide(ip) == Wide(peer);
    match n
    case Net4(a, bits) =>
      if ip.V4? {
        LongPrefixInMappedBlock(bits, a, ip.v4);
      } else if WideContains(n, peer) {
        LongPrefixPinsHigh(MAPPED_PREFIX_BITS + bits, Mapped(a), Wide(ip));
      }
    case Net6(a, bits) =>
      if bits < MAPPED_PREFIX_BITS {
        if ip.V4? {
          ShortPrefixIgnoresLow(bits, a, ip.v4);
        }
      } else if IsMapped(V6(a)) {
        var low: U32 := a % U32_SIZE;
        assert a == Mapped(low);
        if ip.V4? {
          LongPrefixInMappedBlock(bits - MAPPED_PREFIX_BITS, low, ip.v4);
        } else if WideContains(n, peer) {
          LongPrefixPinsHigh(bits, a, Wide(ip));
        }
      } else if ip.V4? && WideContains(n, peer) {
        LongPrefixPinsHigh(bits, a, Wide(ip));
      }
  }

  /** Folding keeps a rule's meaning for all peers if and only if the rule is not a V6 one shorter than /96 that covers
      the mapped block. */
  lemma FoldingKeepsMeaningIff(n: Rule)
    ensures (forall peer: IpAddr :: Contains(CanonicalizeNet(n), Canonical(peer)) <==> WideContains(n, peer))
            <==> !CoversMappedBlock(n)
  {
    if CoversMappedBlock(n) {
      FoldedRuleMeans(n, V4(0));
      assert WideContains(n, V4(0));
      assert !(Contains(CanonicalizeNet(n), Canonical(V4(0))) <==> WideContains(n, V4(0)));
    } else {
      forall peer: IpAddr ensures Contains(CanonicalizeNet(n), Canonical(peer)) <==> WideContains(n, peer) {
        FoldedRuleMeans(n, peer);
      }
    }
  }

  // ---- The list ----

  predicate NoneCover(rules: seq<Rule>) { forall i :: 0 <= i < |rules| ==> !CoversMappedBlock(rules[i]) }

  lemma AnyFolded(rules: seq<Rule>, peer: IpAddr)
    ensures AnyContains(Folded(rules), Canonical(peer)) ==> AnyWide(rules, peer)
    ensures AnyWide(rules, peer) ==> AnyContains(Folded(rules), Canonical(peer)) || (IsV4(peer) && !NoneCover(rules))
    ensures IsV4(peer) && !NoneCover(rules) ==> AnyWide(rules, peer)
  {
    forall i | 0 <= i < |rules|
      ensures Contains(Folded(rules)[i], Canonical(peer))
              <==> WideContains(rules[i], peer) && !(IsV4(peer) && CoversMappedBlock(rules[i]))
      ensures IsV4(peer) && CoversMappedBlock(rules[i]) ==> WideContains(rules[i], peer)
    {
      FoldedRuleMeans(rules[i], peer);
      if IsV4(peer) && CoversMappedBlock(rules[i]) {
        ShortPrefixIgnoresLow(rules[i].bits6, rules[i].v6, Canonical(peer).v4);
      }
    }
    if AnyContains(Folded(rules), Canonical(peer)) {
      var i :| 0 <= i < |rules| && Contains(Folded(rules)[i], Canonical(peer));
      assert WideContains(rules[i], peer);
    }
    if AnyWide(rules, peer) {
      var i :| 0 <= i < |rules| && WideContains(rules[i], peer);
      assert Contains(Folded(rules)[i], Canonical(peer)) || (IsV4(peer) && CoversMappedBlock(rules[i]));
    }
  }

  /** The verdict is the 128-bit reference's for every peer, on all rule lists without a V6 rule shorter than /96
      covering the mapped block. */
  lemma CheckIsReference(allow: seq<Rule>, deny: seq<Rule>, peer: IpAddr)
    requires NoneCover(allow) && NoneCover(deny)
    ensures Check(New(allow, deny), peer) <==> Reference(allow, deny, peer)
  {
    AnyFolded(allow, peer);
    AnyFolded(deny, peer);
  }

  /** On arbitrary rule lists: a peer that is IPv6 proper always gets the reference verdict, and an IPv4 peer gets it if
      and only if the short covering rules do not matter to it. */
  lemma CheckIsReferenceIff(allow: seq<Rule>, deny: seq<Rule>, peer: IpAddr)
    ensures var acl, ip := New(allow, deny), Canonical(peer);
            (Check(acl, peer) <==> Reference(allow, deny, peer))
            <==> || !IsV4(peer)
                 || AnyContains(acl.deny, ip)
                 || (if allow != [] && !AnyContains(acl.allow, ip) then !NoneCover(deny) || NoneCover(allow)
                     else NoneCover(deny))
  {
    AnyFolded(allow, peer);
    AnyFolded(deny, peer);
  }

  /** A peer seen in mapped form on a dual-stack listener gets the verdict of its bare IPv4 address, whatever the
      rules. */
  lemma MappedPeerGetsBareVerdict(acl: AccessControl, v4: U32)
    ensures Check(acl, V6(Mapped(v4))) <==> Check(acl, V4(v4))
  {
  }

  /** `deny ::/0` does not deny an IPv4 peer. */
  lemma ShortV6DenyMissesIpv4(v4: U32)
    ensures Check(New([], [Net6(0, 0)]), V4(v4)) && !Reference([], [Net6(0, 0)], V4(v4))
  {
    Pow2Add(64, 64);
    Pow2Of64();
    var n: Rule := Net6(0, 0);
    assert Mapped(v4) / U128_SIZE == 0;
    assert SamePrefix(128, 0, 0, Mapped(v4));
    assert WideContains([n][0], V4(v4));
    assert New([], [n]).deny[0] == n;
  }
}
