/** IP addresses as numbers, their octets in network order, and the folding of IPv4-mapped IPv6 addresses
    (::ffff:a.b.c.d, section 2.5.5.2 of RFC 4291) back to IPv4. */
module Net {
  import opened Bytes

  const U128_SIZE: int := 0x1_0000_0000_0000_0000_0000_0000_0000_0000
  const MAPPED_HIGH: int := 0xffff

  type U16 = x: int | 0 <= x < 0x1_0000
  type U128 = x: int | 0 <= x < U128_SIZE

  datatype IpAddr = V4(v4: U32) | V6(v6: U128)

  /** The 96 high bits of a mapped address are 0xffff. */
  predicate IsMapped(ip: IpAddr) { ip.V6? && ip.v6 / U32_SIZE == MAPPED_HIGH }

  function Mapped(v4: U32): U128 { MAPPED_HIGH * U32_SIZE + v4 }

  function Canonical(ip: IpAddr): (r: IpAddr)
    ensures !IsMapped(r)
    ensures ip.V6? && IsMapped(ip) ==> r.V4? && ip.v6 == Mapped(r.v4)
  {
    if IsMapped(ip) then V4(ip.v6 % U32_SIZE) else ip
  }

  /** The 128-bit form of an address. */
  function Wide(ip: IpAddr): U128 { if ip.V4? then Mapped(ip.v4) else ip.v6 }

  function Pow256(n: nat): (r: int)
    ensures r > 0
  {
    if n == 0 then 1 else 256 * Pow256(n - 1)
  }

  lemma Pow256Widths()
    ensures Pow256(4) == U32_SIZE
    ensures Pow256(16) == U128_SIZE
  {
    assert Pow256(8) == U64_SIZE;
    assert Pow256(12) == 256 * (256 * (256 * (256 * Pow256(8))));
    assert Pow256(16) == 256 * (256 * (256 * (256 * Pow256(12))));
  }

  /** The low `width` octets of x in network order. */
  function Octets(width: nat, x: nat): (r: Data)
    ensures |r| == width
  {
    if width == 0 then [] else Octets(width - 1, x / 256) + [x % 256]
  }

  lemma OctetsLast(width: nat, x: nat)
    ensures Octets(width + 1, x) == Octets(width, x / 256) + [x % 256]
  {
  }

  lemma OneMorePower(high: nat, n: nat)
    requires n > 0
    ensures high * Pow256(n) == 256 * (high * Pow256(n - 1)) && high * Pow256(n - 1) >= 0
  {
  }

  lemma LastOctet(rest: nat, low: nat)
    ensures (256 * rest + low) / 256 == rest + low / 256 && (256 * rest + low) % 256 == low % 256
  {
  }

  /** The octets of a number, by its high and low parts. */
  lemma {:induction false} OctetsSplit(m: nat, n: nat, high: nat, low: nat)
    requires low < Pow256(n)
    ensures high * Pow256(n) >= 0 && Octets(m + n, high * Pow256(n) + low) == Octets(m, high) + Octets(n, low)
  {
    if n == 0 {
    } else {
      var rest := high * Pow256(n - 1);
      OctetsSplit(m, n - 1, high, low / 256);
      OneMorePower(high, n);
      LastOctet(rest, low);
      OctetsLast(m + n - 1, 256 * rest + low);
      OctetsLast(n - 1, low);
      Assoc(Octets(m, high), Octets(n - 1, low / 256), [low % 256]);
    }
  }

  function FromOctets(d: Data): nat {
    if d == [] then 0 else 256 * FromOctets(d[..|d| - 1]) + d[|d| - 1]
  }

  lemma {:induction false} OctetsRoundTrip(width: nat, x: nat)
    requires x < Pow256(width)
    ensures FromOctets(Octets(width, x)) == x
  {
    if width == 0 {
    } else {
      OctetsRoundTrip(width - 1, x / 256);
      assert Octets(width, x)[..width - 1] == Octets(width - 1, x / 256);
    }
  }

  lemma {:induction false} FromOctetsRoundTrip(d: Data)
    ensures FromOctets(d) < Pow256(|d|)
    ensures Octets(|d|, FromOctets(d)) == d
  {
    if d == [] {
    } else {
      FromOctetsRoundTrip(d[..|d| - 1]);
    }
  }
}
