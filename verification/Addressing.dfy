/** Addresses, prefixes and the pool rules of internal/config and internal/network.

    An address is a family and a number below 2^32 or 2^128. The predicates `Contains` and
    `Overlaps` are written as net/netip computes them, by comparing leading bits; the lemmas
    show that this is interval arithmetic. */
module Addressing {
  import opened Common
  import opened Division

  datatype Family = V4 | V6

  datatype Addr = Addr(family: Family, value: nat)

  datatype Prefix = Prefix(addr: Addr, bits: nat)

  function Pow2(n: nat): (r: nat)
    ensures r > 0
  {
    if n == 0 then 1 else 2 * Pow2(n - 1)
  }

  function BitLen(f: Family): nat {
    if f.V4? then 32 else 128
  }

  /** How many addresses a family has: 2^32 or 2^128. */
  function SpaceSize(f: Family): nat {
    if f.V4? then 0x1_0000_0000 else 0x1_0000_0000_0000_0000_0000_0000_0000_0000
  }

  predicate WellFormed(p: Prefix) {
    p.bits <= BitLen(p.addr.family) && p.addr.value < SpaceSize(p.addr.family)
  }

  function HostBits(p: Prefix): nat
    requires WellFormed(p)
  {
    BitLen(p.addr.family) - p.bits
  }

  /** The number made of the leading bits of an address: what a prefix comparison looks at. */
  function Leading(a: Addr, hostBits: nat): nat {
    DivBounds(a.value, Pow2(hostBits));
    a.value / Pow2(hostBits)
  }

  function Masked(p: Prefix): Prefix
    requires WellFormed(p)
  {
    p.(addr := Addr(p.addr.family, Leading(p.addr, HostBits(p)) * Pow2(HostBits(p))))
  }

  predicate Contains(p: Prefix, a: Addr)
    requires WellFormed(p)
  {
    a.family == p.addr.family && Leading(a, HostBits(p)) == Leading(p.addr, HostBits(p))
  }

  predicate Overlaps(p: Prefix, q: Prefix)
    requires WellFormed(p) && WellFormed(q)
  {
    p.addr.family == q.addr.family &&
    var h := BitLen(p.addr.family) - Min(p.bits, q.bits);
    Leading(p.addr, h) == Leading(q.addr, h)
  }

  /** Lowest and highest address of a prefix. */
  function First(p: Prefix): nat
    requires WellFormed(p)
  {
    Masked(p).addr.value
  }

  function Last(p: Prefix): nat
    requires WellFormed(p)
  {
    First(p) + Pow2(HostBits(p)) - 1
  }

  /** What the allocator may hand out: everything but the network address and, for IPv4, the
      broadcast address. */
  predicate Usable(p: Prefix, a: Addr)
    requires WellFormed(p)
  {
    && a.family == p.addr.family
    && First(p) < a.value <= Last(p)
    && (a.family.V4? ==> a.value != Last(p))
  }

  // ----- powers of two -----

  lemma Regroups(x: int, y: int, z: int)
    ensures x * (y * z) == x * y * z
  {
  }

  lemma {:induction false} Pow2Adds(a: nat, b: nat)
    ensures Pow2(a + b) == Pow2(a) * Pow2(b)
  {
    if a != 0 {
      calc {
        Pow2(a + b);
        2 * Pow2(a - 1 + b);
        { Pow2Adds(a - 1, b); }
        2 * (Pow2(a - 1) * Pow2(b));
        { Regroups(2, Pow2(a - 1), Pow2(b)); }
        2 * Pow2(a - 1) * Pow2(b);
      }
    }
  }

  lemma Squares(n: nat, square: nat)
    requires Pow2(n) * Pow2(n) == square
    ensures Pow2(n + n) == square
  {
    Pow2Adds(n, n);
  }

  lemma SpaceIsPower(f: Family)
    ensures SpaceSize(f) == Pow2(BitLen(f))
  {
    assert Pow2(8) == 0x100;
    Squares(8, 0x1_0000);
    Squares(16, 0x1_0000_0000);
    if f.V6? {
      Squares(32, 0x1_0000_0000_0000_0000);
      Squares(64, 0x1_0000_0000_0000_0000_0000_0000_0000_0000);
    }
  }

  /** Dropping b more bits of an already shortened number is the same as dropping them all. */
  lemma DivDiv(v: nat, a: nat, b: nat)
    ensures v / Pow2(a + b) == v / Pow2(a) / Pow2(b)
  {
    Pow2Adds(a, b);
    QuotientTwice(v, Pow2(a), Pow2(b));
  }

  /** A number below m * d has its quotient by d below m. */
  lemma QuotientBelow(v: nat, d: nat, m: nat)
    requires d > 0 && v < m * d
    ensures v / d * d + d <= m * d
  {
    DivBounds(v, d);
    if m <= v / d {
      Scales(m, v / d, d);
    } else {
      Scales(v / d + 1, m, d);
    }
  }

  // ----- prefixes as intervals -----

  /** Comparing leading bits is membership in the interval [First, Last]. */
  lemma ContainsIsInterval(p: Prefix, a: Addr)
    requires WellFormed(p)
    ensures Contains(p, a) <==> a.family == p.addr.family && First(p) <= a.value <= Last(p)
  {
    var d, q := Pow2(HostBits(p)), Leading(p.addr, HostBits(p));
    DivBounds(a.value, d);
    if a.family == p.addr.family && First(p) <= a.value <= Last(p) {
      QuotientIs(a.value, d, q);
    }
  }

  /** A prefix never runs past the end of its family's address space. */
  lemma PrefixFitsFamily(p: Prefix)
    requires WellFormed(p)
    ensures First(p) <= p.addr.value <= Last(p) < SpaceSize(p.addr.family)
  {
    SpaceIsPower(p.addr.family);
    DivBounds(p.addr.value, Pow2(HostBits(p)));
    Pow2Adds(p.bits, HostBits(p));
    QuotientBelow(p.addr.value, Pow2(HostBits(p)), Pow2(p.bits));
  }

  /** The bit comparison of `Overlaps` is exactly: some address lies in both prefixes. */
  lemma OverlapIsIntersection(p: Prefix, q: Prefix)
    requires WellFormed(p) && WellFormed(q)
    ensures Overlaps(p, q) <==> exists a :: Contains(p, a) && Contains(q, a)
  {
    if p.bits <= q.bits {
      WiderHoldsNarrower(p, q);
    } else {
      WiderHoldsNarrower(q, p);
    }
  }

  lemma WiderHoldsNarrower(p: Prefix, q: Prefix)
    requires WellFormed(p) && WellFormed(q) && p.bits <= q.bits
    ensures Overlaps(p, q) <==> Contains(p, q.addr)
    ensures Contains(q, q.addr)
    ensures forall a :: Contains(p, a) && Contains(q, a) ==> Overlaps(p, q)
  {
    if p.addr.family == q.addr.family {
      forall a | Contains(p, a) && Contains(q, a) ensures Overlaps(p, q) {
        DivDiv(a.value, HostBits(q), q.bits - p.bits);
        DivDiv(q.addr.value, HostBits(q), q.bits - p.bits);
      }
    }
  }

  // ----- pool validation (internal/config) -----

  datatype PoolError = NotAPrefix | WrongFamily | HostBitsSet | ReservedRange | BadLength

  const MIN_IPV4_BITS := 8
  const MAX_IPV4_BITS := 30
  const MIN_IPV6_BITS := 16
  const MAX_IPV6_BITS := 120

  function Octets(a: nat, b: nat): nat {
    a * 0x100_0000 + b * 0x1_0000
  }

  /** 0.0.0.0/8, 127.0.0.0/8, 169.254.0.0/16, 224.0.0.0/4, 240.0.0.0/4. */
  const RESERVED_IPV4 := [
    Prefix(Addr(V4, 0), 8),
    Prefix(Addr(V4, Octets(127, 0)), 8),
    Prefix(Addr(V4, Octets(169, 254)), 16),
    Prefix(Addr(V4, Octets(224, 0)), 4),
    Prefix(Addr(V4, Octets(240, 0)), 4)
  ]

  /** ::/128, ::1/128, fe80::/10, ff00::/8. */
  const RESERVED_IPV6 := [
    Prefix(Addr(V6, 0), 128),
    Prefix(Addr(V6, 1), 128),
    Prefix(Addr(V6, 0xfe80_0000_0000_0000_0000_0000_0000_0000), 10),
    Prefix(Addr(V6, 0xff00_0000_0000_0000_0000_0000_0000_0000), 8)
  ]

  function Reserved(f: Family): seq<Prefix> {
    if f.V4? then RESERVED_IPV4 else RESERVED_IPV6
  }

  function MinBits(f: Family): nat {
    if f.V4? then MIN_IPV4_BITS else MIN_IPV6_BITS
  }

  function MaxBits(f: Family): nat {
    if f.V4? then MAX_IPV4_BITS else MAX_IPV6_BITS
  }

  lemma ReservedWellFormed(f: Family)
    ensures forall r :: r in Reserved(f) ==> WellFormed(r) && r.addr.family == f
  {
  }

  /** The conditions a pool must meet, said of the addresses in it rather than of its bits. */
  ghost predicate PoolAcceptable(family: Family, p: Prefix) {
    && WellFormed(p)
    && p.addr.family == family
    && p.addr.value == First(p)
    && MinBits(family) <= p.bits <= MaxBits(family)
    && forall r, a :: r in Reserved(family) && WellFormed(r) && Contains(p, a) ==> !Contains(r, a)
  }

  predicate Canonical(family: Family, p: Prefix)
    requires WellFormed(p)
  {
    p.addr.family == family && p.addr.value == First(p)
  }

  ghost predicate MeetsReserved(family: Family, p: Prefix)
    requires WellFormed(p)
  {
    exists q, a :: q in Reserved(family) && WellFormed(q) && Contains(q, a) && Contains(p, a)
  }

  /** parsePool, after net/netip has parsed the text. `None` stands for text it rejects. The
      checks run in the source's order, so the first failing one names the error. */
  method ParsePool(family: Family, parsed: Option<Prefix>) returns (r: Result<Prefix, PoolError>)
    requires parsed.Some? ==> WellFormed(parsed.value)
    ensures r.Ok? <==> parsed.Some? && PoolAcceptable(family, parsed.value)
    ensures r.Ok? ==> r.value == parsed.value
    ensures r == Err(NotAPrefix) <==> parsed.None?
    ensures r == Err(WrongFamily) <==> parsed.Some? && parsed.value.addr.family != family
    ensures r == Err(HostBitsSet) <==>
            parsed.Some? && parsed.value.addr.family == family && parsed.value.addr.value != First(parsed.value)
    ensures r == Err(ReservedRange) <==>
            parsed.Some? && Canonical(family, parsed.value) && MeetsReserved(family, parsed.value)
    ensures r == Err(BadLength) <==>
            && parsed.Some? && Canonical(family, parsed.value) && !MeetsReserved(family, parsed.value)
            && !(MinBits(family) <= parsed.value.bits <= MaxBits(family))
  {
    if parsed.None? {
      return Err(NotAPrefix);
    }
    var prefix := parsed.value;
    if prefix.addr.family != family {
      return Err(WrongFamily);
    }
    if Masked(prefix) != prefix {
      return Err(HostBitsSet);
    }
    var reserved := Reserved(family);
    ReservedWellFormed(family);
    for i := 0 to |reserved|
      invariant forall k, a :: 0 <= k < i && Contains(prefix, a) ==> !Contains(reserved[k], a)
    {
      OverlapIsIntersection(prefix, reserved[i]);
      if Overlaps(prefix, reserved[i]) {
        return Err(ReservedRange);
      }
    }
    if prefix.bits < MinBits(family) || prefix.bits > MaxBits(family) {
      return Err(BadLength);
    }
    return Ok(prefix);
  }

  /** No address handed out from an accepted pool lies in a reserved range. */
  lemma HandedOutIsNeverReserved(family: Family, p: Prefix, a: Addr, r: Prefix)
    requires PoolAcceptable(family, p) && Usable(p, a) && r in Reserved(family) && WellFormed(r)
    ensures !(First(r) <= a.value <= Last(r))
  {
    ReservedWellFormed(family);
    ContainsIsInterval(p, a);
    ContainsIsInterval(r, a);
  }

  /** The overlap test between the two pools of one configuration can never fire. */
  lemma FamiliesNeverOverlap(p: Prefix, q: Prefix)
    requires PoolAcceptable(V4, p) && PoolAcceptable(V6, q)
    ensures !Overlaps(p, q)
  {
  }

  lemma HostPowers()
    ensures Pow2(16) == 0x1_0000 && Pow2(24) == 0x100_0000 && Pow2(28) == 0x1000_0000
  {
    assert Pow2(4) == 16 && Pow2(8) == 0x100;
    Squares(8, 0x1_0000);
    Pow2Adds(16, 8);
    Pow2Adds(24, 4);
  }

  lemma RangeIs(r: Prefix, size: nat)
    requires WellFormed(r) && Pow2(HostBits(r)) == size && r.addr.value % size == 0
    ensures First(r) == r.addr.value && Last(r) == r.addr.value + size - 1
  {
    DivBounds(r.addr.value, size);
    assert r.addr.value / size * size == r.addr.value;
  }

  ghost predicate InReserved(f: Family, v: nat) {
    exists r :: r in Reserved(f) && WellFormed(r) && First(r) <= v <= Last(r)
  }

  lemma ReservedRanges()
    ensures forall r :: r in RESERVED_IPV4 ==> WellFormed(r)
    ensures var rs := RESERVED_IPV4;
            && First(rs[0]) == 0 && Last(rs[0]) == 0x00ff_ffff
            && First(rs[1]) == 0x7f00_0000 && Last(rs[1]) == 0x7fff_ffff
            && First(rs[2]) == 0xa9fe_0000 && Last(rs[2]) == 0xa9fe_ffff
            && First(rs[3]) == 0xe000_0000 && Last(rs[3]) == 0xefff_ffff
            && First(rs[4]) == 0xf000_0000 && Last(rs[4]) == 0xffff_ffff
  {
    HostPowers();
    var rs := RESERVED_IPV4;
    RangeIs(rs[0], 0x100_0000);
    RangeIs(rs[1], 0x100_0000);
    RangeIs(rs[2], 0x1_0000);
    RangeIs(rs[3], 0x1000_0000);
    RangeIs(rs[4], 0x1000_0000);
  }

  lemma InOneOf(rs: seq<Prefix>, v: nat)
    requires |rs| == 5 && forall r :: r in rs ==> WellFormed(r)
    ensures (exists r :: r in rs && WellFormed(r) && First(r) <= v <= Last(r)) <==>
            || First(rs[0]) <= v <= Last(rs[0]) || First(rs[1]) <= v <= Last(rs[1])
            || First(rs[2]) <= v <= Last(rs[2]) || First(rs[3]) <= v <= Last(rs[3])
            || First(rs[4]) <= v <= Last(rs[4])
  {
    assert rs[0] in rs && rs[1] in rs && rs[2] in rs && rs[3] in rs && rs[4] in rs;
    forall r | r in rs && First(r) <= v <= Last(r)
      ensures r == rs[0] || r == rs[1] || r == rs[2] || r == rs[3] || r == rs[4]
    {
    }
  }

  /** The reserved IPv4 addresses: this network, loopback, link-local, and everything from multicast up. */
  lemma ReservedIPv4Are(v: nat)
    requires v < 0x1_0000_0000
    ensures InReserved(V4, v) <==>
            || v <= 0x00ff_ffff || 0x7f00_0000 <= v <= 0x7fff_ffff
            || 0xa9fe_0000 <= v <= 0xa9fe_ffff || 0xe000_0000 <= v
  {
    ReservedRanges();
    InOneOf(RESERVED_IPV4, v);
  }

  lemma LargeHostPowers()
    ensures Pow2(0) == 1 && Pow2(120) == 0x1_0000_0000_0000_0000_0000_0000_0000_00
    ensures Pow2(118) == 0x40_0000_0000_0000_0000_0000_0000_0000
  {
    assert Pow2(8) == 0x100 && Pow2(2) == 4;
    SpaceIsPower(V6);
    Pow2Adds(120, 8);
    Pow2Adds(118, 2);
  }

  lemma ReservedRanges6()
    ensures forall r :: r in RESERVED_IPV6 ==> WellFormed(r)
    ensures var rs := RESERVED_IPV6;
            && First(rs[0]) == Last(rs[0]) == 0 && First(rs[1]) == Last(rs[1]) == 1
            && First(rs[2]) == 0xfe80_0000_0000_0000_0000_0000_0000_0000
            && Last(rs[2]) == 0xfebf_ffff_ffff_ffff_ffff_ffff_ffff_ffff
            && First(rs[3]) == 0xff00_0000_0000_0000_0000_0000_0000_0000
            && Last(rs[3]) == 0xffff_ffff_ffff_ffff_ffff_ffff_ffff_ffff
  {
    LargeHostPowers();
    var rs := RESERVED_IPV6;
    RangeIs(rs[0], 1);
    RangeIs(rs[1], 1);
    RangeIs(rs[2], 0x40_0000_0000_0000_0000_0000_0000_0000);
    RangeIs(rs[3], 0x1_0000_0000_0000_0000_0000_0000_0000_00);
  }

  /** The reserved IPv6 addresses: unspecified, loopback, link-local and multicast. */
  lemma ReservedIPv6Are(v: nat)
    requires v < SpaceSize(V6)
    ensures InReserved(V6, v) <==>
            || v == 0 || v == 1
            || 0xfe80_0000_0000_0000_0000_0000_0000_0000 <= v <= 0xfebf_ffff_ffff_ffff_ffff_ffff_ffff_ffff
            || 0xff00_0000_0000_0000_0000_0000_0000_0000 <= v
  {
    ReservedRanges6();
    var rs := RESERVED_IPV6;
    assert rs[0] in rs && rs[1] in rs && rs[2] in rs && rs[3] in rs;
  }

  // ----- capacity -----

  ghost function UsableSet(p: Prefix): set<Addr>
    requires WellFormed(p)
  {
    set v: nat | v <= Last(p) && Usable(p, Addr(p.addr.family, v)) :: Addr(p.addr.family, v)
  }

  ghost function Interval(f: Family, lo: nat, hi: nat): set<Addr> {
    set v: nat | lo <= v < hi :: Addr(f, v)
  }

  lemma {:induction false} IntervalSize(f: Family, lo: nat, hi: nat)
    requires lo <= hi
    ensures |Interval(f, lo, hi)| == hi - lo
  {
    if lo < hi {
      IntervalSize(f, lo, hi - 1);
      assert Interval(f, lo, hi) == Interval(f, lo, hi - 1) + {Addr(f, hi - 1)};
    } else {
      assert Interval(f, lo, hi) == {};
    }
  }

  /** How many devices an accepted pool holds: 2^h - 2 for IPv4, 2^h - 1 for IPv6. */
  lemma Capacity(family: Family, p: Prefix)
    requires PoolAcceptable(family, p)
    ensures |UsableSet(p)| == Pow2(HostBits(p)) - (if family.V4? then 2 else 1)
    ensures |UsableSet(p)| >= 2
    ensures if family.V4? then 8 <= p.bits <= 30 else 16 <= p.bits <= 120
  {
    var hi := if family.V4? then Last(p) else Last(p) + 1;
    Pow2AtLeast(HostBits(p));
    assert UsableSet(p) == Interval(family, First(p) + 1, hi);
    IntervalSize(family, First(p) + 1, hi);
  }

  /** What may be handed out: every address of the prefix but its lowest and, for IPv4, its highest. */
  lemma UsableMeans(p: Prefix, a: Addr)
    requires WellFormed(p)
    ensures Usable(p, a) <==>
            Contains(p, a) && a.value != First(p) && (a.family.V4? ==> a.value != Last(p))
  {
    ContainsIsInterval(p, a);
  }

  lemma Pow2AtLeast(h: nat)
    requires h >= 2
    ensures Pow2(h) >= 4
  {
    Pow2Adds(2, h - 2);
    assert Pow2(2) * Pow2(h - 2) >= 4 * 1;
  }

  // ----- the highest address, byte by byte -----

  /** The big-endian number held by a byte slice. */
  function Value(s: seq<bv8>): nat {
    if s == [] then 0 else 256 * Value(s[..|s| - 1]) + s[|s| - 1] as nat
  }

  /** 0xff shifted right until n ones are left. */
  function LowOnes(n: nat): bv8
    requires 1 <= n <= 8
  {
    0xff >> (8 - n) as bv4
  }

  function OrLow(b: bv8, n: nat): bv8
    requires 1 <= n <= 8
  {
    b | LowOnes(n)
  }

  /** What the loop of lastAddr computes: the low h bits of a slice set, from the last byte up. */
  function WithLowBits(s: seq<bv8>, h: nat): (r: seq<bv8>)
    requires h <= 8 * |s|
    ensures |r| == |s|
    decreases h
  {
    if h == 0 then s
    else
      var n := Min(8, h);
      WithLowBits(s[..|s| - 1], h - n) + [OrLow(s[|s| - 1], n)]
  }

  lemma LowOnesAre(n: nat)
    requires 1 <= n <= 8
    ensures LowOnes(n) == if n == 1 then 1 else if n == 2 then 3 else if n == 3 then 7 else if n == 4 then 15
                          else if n == 5 then 31 else if n == 6 then 63 else if n == 7 then 127 else 255
  {
    if n == 1 {} else if n == 2 {} else if n == 3 {} else if n == 4 {}
    else if n == 5 {} else if n == 6 {} else if n == 7 {}
  }

  lemma OrAdds1(b: bv8)
    requires b as nat % 2 == 0
    ensures (b | 1) as nat == b as nat + 1
  {
  }

  lemma OrAdds3(b: bv8)
    requires b as nat % 4 == 0
    ensures (b | 3) as nat == b as nat + 3
  {
  }

  lemma OrAdds7(b: bv8)
    requires b as nat % 8 == 0
    ensures (b | 7) as nat == b as nat + 7
  {
  }

  lemma OrAdds15(b: bv8)
    requires b as nat % 16 == 0
    ensures (b | 15) as nat == b as nat + 15
  {
  }

  lemma OrAdds31(b: bv8)
    requires b as nat % 32 == 0
    ensures (b | 31) as nat == b as nat + 31
  {
  }

  lemma OrAdds63(b: bv8)
    requires b as nat % 64 == 0
    ensures (b | 63) as nat == b as nat + 63
  {
  }

  lemma OrAdds127(b: bv8)
    requires b as nat % 128 == 0
    ensures (b | 127) as nat == b as nat + 127
  {
  }

  lemma OrAdds255(b: bv8)
    requires b as nat % 256 == 0
    ensures (b | 255) as nat == b as nat + 255
  {
  }

  function ByteSize(n: nat): nat
    requires n <= 8
  {
    [1, 2, 4, 8, 16, 32, 64, 128, 256][n]
  }

  lemma OrAddsOnes(b: bv8, n: nat)
    requires 1 <= n <= 8 && b as nat % ByteSize(n) == 0
    ensures OrLow(b, n) as nat == b as nat + ByteSize(n) - 1
  {
    LowOnesAre(n);
    if n == 1 { OrAdds1(b); } else if n == 2 { OrAdds3(b); }
    else if n == 3 { OrAdds7(b); } else if n == 4 { OrAdds15(b); }
    else if n == 5 { OrAdds31(b); } else if n == 6 { OrAdds63(b); }
    else if n == 7 { OrAdds127(b); } else { OrAdds255(b); }
  }

  lemma Pow2OfByte(n: nat)
    requires n <= 8
    ensures Pow2(n) == ByteSize(n)
  {
    assert Pow2(0) == 1 && Pow2(1) == 2 && Pow2(2) == 4 && Pow2(3) == 8 && Pow2(4) == 16;
    assert Pow2(5) == 32 && Pow2(6) == 64 && Pow2(7) == 128 && Pow2(8) == 256;
  }

  /** A multiple of 2^8 * m ends in a zero byte, and its upper part is a multiple of m. */
  lemma WholeByte(upper: nat, low: nat, m: nat)
    requires m > 0 && low < 256 && (256 * upper + low) % (256 * m) == 0
    ensures low == 0 && upper % m == 0
  {
    var v := 256 * upper + low;
    var k := v / (256 * m);
    assert v == 256 * (m * k);
    assert upper == m * k;
    QuotientIs(upper, m, k);
  }

  lemma PartByte(upper: nat, low: nat, n: nat)
    requires 1 <= n <= 8 && (256 * upper + low) % ByteSize(n) == 0
    ensures low % ByteSize(n) == 0
  {
    var m := ByteSize(8 - n);
    assert ByteSize(n) * m == 256;
    assert 256 * upper == m * upper * ByteSize(n);
    ModShift(m * upper, low, ByteSize(n));
  }

  lemma ModShift(k: nat, low: nat, m: nat)
    requires m > 0
    ensures (k * m + low) % m == low % m
  {
    DivBounds(low, m);
    QuotientIs(k * m + low, m, k + low / m);
  }

  lemma ValueSnoc(s: seq<bv8>, b: bv8)
    ensures Value(s + [b]) == 256 * Value(s) + b as nat
  {
    assert (s + [b])[..|s|] == s;
  }

  /** Setting the low h bits of a slice whose low h bits are clear adds 2^h - 1. */
  lemma {:induction false} WithLowBitsAdds(s: seq<bv8>, h: nat)
    requires h <= 8 * |s| && Value(s) % Pow2(h) == 0
    ensures Value(WithLowBits(s, h)) == Value(s) + Pow2(h) - 1
    decreases h
  {
    if h > 0 {
      var upper, low := s[..|s| - 1], s[|s| - 1];
      if h < 8 {
        FewLowBits(upper, low, h);
        assert s == upper + [low];
      } else {
        ZeroLastByte(upper, low, h);
        WithLowBitsAdds(upper, h - 8);
        ValueSnoc(WithLowBits(upper, h - 8), OrLow(low, 8));
      }
    }
  }

  lemma FewLowBits(upper: seq<bv8>, low: bv8, h: nat)
    requires 0 < h < 8 && (256 * Value(upper) + low as nat) % Pow2(h) == 0
    ensures Value(WithLowBits(upper + [low], h)) == Value(upper + [low]) + Pow2(h) - 1
  {
    LastByte(upper, low, h);
    assert (upper + [low])[..|upper|] == upper;
    assert WithLowBits(upper, 0) == upper;
    ValueSnoc(upper, OrLow(low, h));
    ValueSnoc(upper, low);
  }

  lemma ZeroLastByte(upper: seq<bv8>, low: bv8, h: nat)
    requires h >= 8 && (256 * Value(upper) + low as nat) % Pow2(h) == 0
    ensures Pow2(h) == 256 * Pow2(h - 8) && Value(upper) % Pow2(h - 8) == 0
    ensures low as nat == 0 && OrLow(low, 8) as nat == 255
  {
    Pow2Adds(8, h - 8);
    Pow2OfByte(8);
    WholeByte(Value(upper), low as nat, Pow2(h - 8));
    OrAddsOnes(low, 8);
  }

  lemma LastByte(upper: seq<bv8>, low: bv8, n: nat)
    requires 1 <= n <= 8 && (256 * Value(upper) + low as nat) % Pow2(n) == 0
    ensures OrLow(low, n) as nat == low as nat + Pow2(n) - 1
  {
    Pow2OfByte(n);
    PartByte(Value(upper), low as nat, n);
    OrAddsOnes(low, n);
  }

  lemma Successor(b: bv8)
    requires b != 0xff
    ensures (b + 1) as nat == b as nat + 1
  {
  }

  function ToByte(x: nat): (b: bv8)
    requires x < 256
    ensures b as nat == x
  {
    if x == 0 then 0
    else
      var b := ToByte(x - 1);
      Successor(b);
      b + 1
  }

  /** netip.Addr.AsSlice: the n big-endian bytes of a number. */
  function Bytes(v: nat, n: nat): (s: seq<bv8>)
    ensures |s| == n
    decreases n
  {
    if n == 0 then [] else Bytes(v / 256, n - 1) + [ToByte(v % 256)]
  }

  lemma {:induction false} BytesValue(v: nat, n: nat)
    requires v < Pow2(8 * n)
    ensures Value(Bytes(v, n)) == v
    decreases n
  {
    if n > 0 {
      Pow2Adds(8, 8 * (n - 1));
      Pow2OfByte(8);
      BytesValue(v / 256, n - 1);
      ValueSnoc(Bytes(v / 256, n - 1), ToByte(v % 256));
    }
  }

  /** The first k bytes still to be filled with h ones, the rest done. */
  function Filling(s: seq<bv8>, k: nat, h: nat): seq<bv8>
    requires k <= |s| && h <= 8 * k
  {
    WithLowBits(s[..k], h) + s[k..]
  }

  lemma FillStarts(s: seq<bv8>, h: nat)
    requires h <= 8 * |s|
    ensures Filling(s, |s|, h) == WithLowBits(s, h)
  {
    assert s[..|s|] == s && s[|s|..] == [];
  }

  lemma FillEnds(s: seq<bv8>, k: nat)
    requires k <= |s|
    ensures Filling(s, k, 0) == s
  {
  }

  lemma FillStep(s: seq<bv8>, i: nat, h: nat)
    requires i < |s| && 0 < h <= 8 * (i + 1)
    ensures Filling(s[i := OrLow(s[i], Min(8, h))], i, h - Min(8, h)) == Filling(s, i + 1, h)
  {
    var after := s[i := OrLow(s[i], Min(8, h))];
    assert s[..i + 1][..i] == s[..i] == after[..i];
    assert after[i..] == [after[i]] + s[i + 1..];
  }

  /** The loop of lastAddr: from the last byte upwards, or a byte of ones into each whole byte
      of host bits and what is left into one more. */
  method FillHostBits(bytes: array<bv8>, host: nat)
    requires host <= 8 * bytes.Length
    modifies bytes
    ensures bytes[..] == WithLowBits(old(bytes[..]), host)
  {
    var hostBits: nat, i := host, bytes.Length - 1;
    ghost var target := WithLowBits(bytes[..], host);
    FillStarts(bytes[..], host);
    while i >= 0 && hostBits > 0
      invariant -1 <= i < bytes.Length
      invariant hostBits <= 8 * (i + 1)
      invariant Filling(bytes[..], i + 1, hostBits) == target
    {
      FillStep(bytes[..], i, hostBits);
      var n := Min(8, hostBits);
      ghost var before := bytes[..];
      bytes[i] := OrLow(bytes[i], n);
      assert bytes[..] == before[i := OrLow(before[i], n)];
      hostBits := hostBits - n;
      i := i - 1;
    }
    FillEnds(bytes[..], i + 1);
  }

  /** lastAddr: the byte loop ends on exactly the highest address of the prefix. */
  method LastAddr(p: Prefix) returns (a: Addr)
    requires WellFormed(p)
    ensures a == Addr(p.addr.family, Last(p))
  {
    var network := Bytes(Masked(p).addr.value, BitLen(p.addr.family) / 8);
    var bytes := new bv8[|network|](k requires 0 <= k < |network| => network[k]);
    assert bytes[..] == network;
    FillHostBits(bytes, HostBits(p));
    FilledIsLast(p);
    a := Addr(p.addr.family, Value(bytes[..]));
  }

  lemma FilledIsLast(p: Prefix)
    requires WellFormed(p)
    ensures Value(WithLowBits(Bytes(First(p), BitLen(p.addr.family) / 8), HostBits(p))) == Last(p)
  {
    PrefixFitsFamily(p);
    SpaceIsPower(p.addr.family);
    BytesValue(First(p), BitLen(p.addr.family) / 8);
    MultipleOf(Leading(p.addr, HostBits(p)), Pow2(HostBits(p)));
    WithLowBitsAdds(Bytes(First(p), BitLen(p.addr.family) / 8), HostBits(p));
  }

  lemma MultipleOf(k: nat, d: nat)
    requires d > 0
    ensures k * d % d == 0
  {
    QuotientIs(k * d, d, k);
    DivBounds(k * d, d);
  }
}
