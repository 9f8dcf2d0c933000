/**
CIDR membership (src/security/network.rs): the masked comparison the gateway computes, against the
interval of addresses that a CIDR denotes.  `&` is written out on binary digits, `<<` truncates.
*/
module Network {
  import opened Wrappers

  type u32 = x: nat | x < 0x1_0000_0000
  type u128 = x: nat | x < 0x1_0000_0000_0000_0000_0000_0000_0000_0000

  datatype IpAddr = V4(bits4: u32) | V6(bits6: u128)

  datatype CidrError = PrefixMissing | BadAddress | BadPrefix | NotCanonical | WrongFamilyOrPrefix

  datatype IpNetwork = Net4(network4: u32, mask4: u32) | Net6(network6: u128, mask6: u128)

  // ---- address normalisation ----

  /** `::ffff:a.b.c.d`, section 2.5.5.2 of RFC 4291. */
  function ToIpv4Mapped(bits: u128): Option<u32> {
    if bits / 0x1_0000_0000 == 0xFFFF then Some(bits % 0x1_0000_0000) else None
  }

  function Mapped(bits: u32): IpAddr {
    V6(0xFFFF_0000_0000 + bits)
  }

  function Normalize(address: IpAddr): IpAddr {
    match address
    case V4(_) => address
    case V6(bits) => if ToIpv4Mapped(bits).Some? then V4(ToIpv4Mapped(bits).value) else address
  }

  predicate Normalized(address: IpAddr) {
    Normalize(address) == address
  }

  lemma NormalizeOnce(address: IpAddr)
    ensures Normalized(Normalize(address))
    ensures address.V4? ==> Normalize(Mapped(address.bits4)) == address
  {
  }

  // ---- machine arithmetic ----

  function Pow2(n: nat): (power: nat)
    ensures power >= 1
  {
    if n == 0 then 1 else 2 * Pow2(n - 1)
  }

  /** Bitwise `x & y`. */
  function And(x: nat, y: nat): nat {
    if x == 0 || y == 0 then 0
    else 2 * And(x / 2, y / 2) + (if x % 2 == 1 && y % 2 == 1 then 1 else 0)
  }

  /** `x << k` before truncation. */
  function ShiftLeft(x: nat, k: nat): nat {
    if k == 0 then x else 2 * ShiftLeft(x, k - 1)
  }

  /** The low `width` bits. */
  function Low(x: nat, width: nat): (low: nat)
    ensures low < Pow2(width)
  {
    if width == 0 then 0 else 2 * Low(x / 2, width - 1) + x % 2
  }

  /** `MAX << (width - prefix)` in `width` bits, and 0 for the empty prefix. */
  function Mask(width: nat, prefix: nat): (mask: nat)
    requires prefix <= width
    ensures mask < Pow2(width)
  {
    if prefix == 0 then 0 else Low(ShiftLeft(Pow2(width) - 1, width - prefix), width)
  }

  // ---- the gateway's functions ----

  /**
  `address` and `prefix` are what the library makes of the text on either side of the first slash
  (`None` where it does not parse); `slash` says whether there is one.
  */
  function Parse(slash: bool, address: Option<IpAddr>, prefix: Option<u32>): (r: Result<IpNetwork, CidrError>) {
    PowWidths();
    if !slash then Err(PrefixMissing)
    else if address.None? then Err(BadAddress)
    else if prefix.None? then Err(BadPrefix)
    else match address.value
      case V4(bits) =>
        if prefix.value > 32 then Err(WrongFamilyOrPrefix)
        else if And(bits, Mask(32, prefix.value)) != bits then Err(NotCanonical)
        else Ok(Net4(bits, Mask(32, prefix.value)))
      case V6(bits) =>
        if prefix.value > 128 || ToIpv4Mapped(bits).Some? then Err(WrongFamilyOrPrefix)
        else if And(bits, Mask(128, prefix.value)) != bits then Err(NotCanonical)
        else Ok(Net6(bits, Mask(128, prefix.value)))
  }

  predicate Contains(net: IpNetwork, address: IpAddr) {
    match (net, Normalize(address))
    case (Net4(network, mask), V4(bits)) => And(bits, mask) == network
    case (Net6(network, mask), V6(bits)) => And(bits, mask) == network
    case _ => false
  }

  // ---- bit lemmas: everything is linear, one binary digit at a time ----

  lemma PowWidths()
    ensures Pow2(32) == 0x1_0000_0000
    ensures Pow2(128) == 0x1_0000_0000_0000_0000_0000_0000_0000_0000
  {
    PowPlus8(0);
    PowPlus8(8);
    PowPlus8(16);
    PowPlus8(24);
    PowPlus32(0);
    PowPlus32(32);
    PowPlus32(64);
    PowPlus32(96);
  }

  lemma PowPlus8(n: nat)
    ensures Pow2(n + 8) == 256 * Pow2(n)
  {
    assert Pow2(n + 2) == 2 * Pow2(n + 1) == 4 * Pow2(n);
    assert Pow2(n + 4) == 2 * Pow2(n + 3) == 4 * Pow2(n + 2);
    assert Pow2(n + 6) == 2 * Pow2(n + 5) == 4 * Pow2(n + 4);
    assert Pow2(n + 8) == 2 * Pow2(n + 7) == 4 * Pow2(n + 6);
  }

  lemma PowPlus32(n: nat)
    ensures Pow2(n + 32) == 0x1_0000_0000 * Pow2(n)
  {
    PowPlus8(n);
    PowPlus8(n + 8);
    PowPlus8(n + 16);
    PowPlus8(n + 24);
  }

  /** `x` with its low `k` bits cleared. */
  function High(x: nat, k: nat): nat {
    if k == 0 then x else 2 * High(x / 2, k - 1)
  }

  lemma {:induction false} HighPlusLow(x: nat, k: nat)
    ensures x == High(x, k) + Low(x, k)
    decreases k
  {
    if k > 0 { HighPlusLow(x / 2, k - 1); }
  }

  lemma Halve(half: nat)
    ensures (2 * half + 1) / 2 == half && (2 * half + 1) % 2 == 1
    ensures 2 * half / 2 == half && 2 * half % 2 == 0
  {
  }

  lemma {:induction false} LowOnes(n: nat, width: nat)
    requires width <= n
    ensures Low(Pow2(n) - 1, width) == Pow2(width) - 1
    decreases width
  {
    if width > 0 {
      var half := Pow2(n - 1) - 1;
      assert Pow2(n) - 1 == 2 * half + 1;
      Halve(half);
      LowOnes(n - 1, width - 1);
    }
  }

  lemma {:induction false} AndOnes(x: nat, n: nat)
    requires x < Pow2(n)
    ensures And(x, Pow2(n) - 1) == x
    decreases n
  {
    if n > 0 && x > 0 {
      var half := Pow2(n - 1) - 1;
      assert Pow2(n) - 1 == 2 * half + 1;
      Halve(half);
      AndOnes(x / 2, n - 1);
    }
  }

  /** Masking with at least `width - k` ones shifted up by `k` clears the low `k` bits. */
  lemma {:induction false} AndShiftedOnes(x: nat, ones: nat, k: nat, width: nat)
    requires x < Pow2(width) && k <= width <= ones + k
    ensures And(x, Low(ShiftLeft(Pow2(ones) - 1, k), width)) == High(x, k)
    decreases k
  {
    if k == 0 {
      LowOnes(ones, width);
      AndOnes(x, width);
    } else {
      var z := ShiftLeft(Pow2(ones) - 1, k - 1);
      Halve(z);
      assert Low(2 * z, width) == 2 * Low(z, width - 1);
      var y := Low(z, width - 1);
      Halve(y);
      assert And(x, 2 * y) == 2 * And(x / 2, y);
      AndShiftedOnes(x / 2, ones, k - 1, width - 1);
    }
  }

  lemma {:induction false} HighOfAll(x: nat, width: nat)
    requires x < Pow2(width)
    ensures High(x, width) == 0
    decreases width
  {
    if width > 0 { HighOfAll(x / 2, width - 1); }
  }

  /** The gateway's mask clears the host bits. */
  lemma AndMask(width: nat, prefix: nat, x: nat)
    requires prefix <= width && x < Pow2(width)
    ensures And(x, Mask(width, prefix)) == High(x, width - prefix)
  {
    if prefix == 0 {
      HighOfAll(x, width);
    } else {
      AndShiftedOnes(x, width, width - prefix, width);
    }
  }

  /** Clearing the low `k` bits gives `base` exactly on the block of `2^k` addresses from `base`. */
  lemma {:induction false} HighIsBlock(x: nat, base: nat, k: nat)
    requires High(base, k) == base
    ensures High(x, k) == base <==> base <= x < base + Pow2(k)
    decreases k
  {
    if k > 0 {
      HighIsBlock(x / 2, base / 2, k - 1);
    }
  }

  /** Clearing more bits forgets more. */
  lemma {:induction false} HighCoarser(x: nat, y: nat, k: nat, more: nat)
    requires High(x, k) == High(y, k)
    ensures High(x, k + more) == High(y, k + more)
    decreases k
  {
    if k > 0 {
      HighCoarser(x / 2, y / 2, k - 1, more);
    }
  }

  // ---- what membership means ----

  /** The parsed network, its family's width, and the prefix it was written with. */
  ghost predicate IsCidr(net: IpNetwork, address: IpAddr, prefix: u32) {
    Parse(true, Some(address), Some(prefix)) == Ok(net)
  }

  function Width(address: IpAddr): nat {
    if address.V4? then 32 else 128
  }

  function Bits(address: IpAddr): nat {
    if address.V4? then address.bits4 else address.bits6
  }

  /** The addresses a CIDR denotes. */
  ghost predicate InBlock(address: IpAddr, prefix: nat, candidate: IpAddr)
    requires prefix <= Width(address)
  {
    && candidate.V4? == address.V4?
    && Bits(address) <= Bits(candidate) < Bits(address) + Pow2(Width(address) - prefix)
  }

  /** A CIDR is accepted exactly when its prefix fits, it is not an IPv4-mapped block, and its host bits are zero. */
  lemma ParseAccepts(address: IpAddr, prefix: u32)
    ensures Parse(true, Some(address), Some(prefix)).Ok? <==>
      && prefix <= Width(address)
      && Normalized(address)
      && Low(Bits(address), Width(address) - prefix) == 0
  {
    PowWidths();
    if prefix <= Width(address) {
      CanonicalBits(Width(address), prefix, Bits(address));
    }
  }

  lemma CanonicalBits(width: nat, prefix: nat, bits: nat)
    requires prefix <= width && bits < Pow2(width)
    ensures And(bits, Mask(width, prefix)) == bits <==> Low(bits, width - prefix) == 0
  {
    AndMask(width, prefix, bits);
    HighPlusLow(bits, width - prefix);
  }

  lemma BitsFit(address: IpAddr)
    ensures Bits(address) < Pow2(Width(address))
  {
    PowWidths();
  }

  lemma CidrFacts(net: IpNetwork, address: IpAddr, prefix: u32)
    requires IsCidr(net, address, prefix)
    ensures prefix <= Width(address)
    ensures net == if address.V4? then Net4(address.bits4, Mask(32, prefix)) else Net6(address.bits6, Mask(128, prefix))
    ensures High(Bits(address), Width(address) - prefix) == Bits(address)
  {
    BitsFit(address);
    AndMask(Width(address), prefix, Bits(address));
  }

  /** Membership is agreement on the bits above the host part. */
  lemma ContainsIsHigh(net: IpNetwork, address: IpAddr, prefix: u32, candidate: IpAddr)
    requires IsCidr(net, address, prefix)
    ensures prefix <= Width(address)
    ensures Contains(net, candidate) <==>
      && Normalize(candidate).V4? == address.V4?
      && High(Bits(Normalize(candidate)), Width(address) - prefix) == Bits(address)
  {
    CidrFacts(net, address, prefix);
    BitsFit(Normalize(candidate));
    if Normalize(candidate).V4? == address.V4? {
      AndMask(Width(address), prefix, Bits(Normalize(candidate)));
    }
  }

  /** Membership is lying in the block of addresses the CIDR denotes, in the same family. */
  lemma ContainsIsInterval(net: IpNetwork, address: IpAddr, prefix: u32, candidate: IpAddr)
    requires IsCidr(net, address, prefix)
    ensures prefix <= Width(address)
    ensures Contains(net, candidate) <==> InBlock(address, prefix, Normalize(candidate))
  {
    CidrFacts(net, address, prefix);
    ContainsIsHigh(net, address, prefix, candidate);
    HighIsBlock(Bits(Normalize(candidate)), Bits(address), Width(address) - prefix);
  }

  /** An IPv4 address and its mapped IPv6 form are the same member. */
  lemma MappedIsSame(net: IpNetwork, bits: u32)
    ensures Contains(net, Mapped(bits)) == Contains(net, V4(bits))
  {
    NormalizeOnce(V4(bits));
  }

  ghost predicate Within(inner: IpNetwork, outer: IpNetwork) {
    forall ip: IpAddr :: Contains(inner, ip) ==> Contains(outer, ip)
  }

  ghost predicate Apart(a: IpNetwork, b: IpNetwork) {
    forall ip: IpAddr :: !(Contains(a, ip) && Contains(b, ip))
  }

  lemma SharedMemberNests(a: IpNetwork, aAddress: IpAddr, aPrefix: u32, b: IpNetwork, bAddress: IpAddr, bPrefix: u32,
    shared: IpAddr)
    requires IsCidr(a, aAddress, aPrefix) && IsCidr(b, bAddress, bPrefix) && aPrefix >= bPrefix
    requires Contains(a, shared) && Contains(b, shared)
    ensures Within(a, b)
  {
    ContainsIsHigh(a, aAddress, aPrefix, shared);
    ContainsIsHigh(b, bAddress, bPrefix, shared);
    forall ip: IpAddr | Contains(a, ip)
      ensures Contains(b, ip)
    {
      ContainsIsHigh(a, aAddress, aPrefix, ip);
      ContainsIsHigh(b, bAddress, bPrefix, ip);
      HighCoarser(Bits(Normalize(ip)), Bits(Normalize(shared)), Width(aAddress) - aPrefix, aPrefix - bPrefix);
    }
  }

  /** Any two CIDRs are nested or have no address in common. */
  lemma NestedOrApart(a: IpNetwork, aAddress: IpAddr, aPrefix: u32, b: IpNetwork, bAddress: IpAddr, bPrefix: u32)
    requires IsCidr(a, aAddress, aPrefix) && IsCidr(b, bAddress, bPrefix)
    ensures Within(a, b) || Within(b, a) || Apart(a, b)
  {
    if !Apart(a, b) {
      var ip: IpAddr :| Contains(a, ip) && Contains(b, ip);
      if aPrefix >= bPrefix {
        SharedMemberNests(a, aAddress, aPrefix, b, bAddress, bPrefix, ip);
      } else {
        SharedMemberNests(b, bAddress, bPrefix, a, aAddress, aPrefix, ip);
      }
    }
  }
}
