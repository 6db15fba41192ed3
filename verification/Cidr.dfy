/**
IP addresses as numbers, CIDR blocks as the numbers that share a prefix, and the test for a host that
looks cluster-internal. Two blocks of one family are nested or disjoint, so comparing them on the
shorter of their prefixes finds out whether they share an address.
*/
module Cidr {

  datatype Address = V4(n: nat) | V6(n: nat)

  /** The first `bits` bits of `address`; the rest of it need not be zero. */
  datatype Prefix = Prefix(address: Address, bits: nat)

  /** A host as the parsers see it: a name, a literal address, or a block. */
  datatype Host = Name(text: string) | Ip(address: Address) | Block(prefix: Prefix)

  function Width(a: Address): nat {
    if a.V4? then 32 else 128
  }

  predicate ValidAddress(a: Address) {
    a.n < if a.V4? then 0x1_0000_0000 else 0x1_0000_0000_0000_0000_0000_0000_0000_0000
  }

  predicate ValidPrefix(p: Prefix) {
    ValidAddress(p.address) && p.bits <= Width(p.address)
  }

  predicate ValidHost(h: Host) {
    match h
    case Name(_) => true
    case Ip(a) => ValidAddress(a)
    case Block(p) => ValidPrefix(p)
  }

  /** A number without its last `k` bits. */
  function Drop(n: nat, k: nat): nat
    decreases k, n
  {
    if k == 0 then n else Drop(n / 2, k - 1)
  }

  /** The number the first `bits` bits of an address make. */
  function Top(a: Address, bits: nat): nat
    requires bits <= Width(a)
  {
    Drop(a.n, Width(a) - bits)
  }

  predicate SameFamily(a: Address, b: Address) {
    a.V4? == b.V4?
  }

  predicate Contains(p: Prefix, a: Address)
    requires ValidPrefix(p)
  {
    SameFamily(p.address, a) && Top(a, p.bits) == Top(p.address, p.bits)
  }

  /** An IPv6 address that stands for an IPv4 one. */
  predicate Mapped(a: Address) {
    a.V6? && a.n / 0x1_0000_0000 == 0xffff
  }

  /** A host that is a literal: an address becomes the block of its own; a name is none. */
  function AsCidr(h: Host): (p: seq<Prefix>)
    requires ValidHost(h)
    ensures |p| <= 1 && (p == [] <==> h.Name?)
    ensures p != [] ==> ValidPrefix(p[0])
  {
    match h
    case Name(_) => []
    case Ip(a) => [Prefix(a, if a.V4? || Mapped(a) then 32 else 128)]
    case Block(p) => [p]
  }

  predicate Denotes(h: Host, a: Address)
    requires ValidHost(h)
  {
    match h
    case Name(_) => false
    case Ip(x) => a == x
    case Block(p) => Contains(p, a)
  }

  // ---- Overlap ----

  function Shorter(p: Prefix, q: Prefix): nat {
    if p.bits < q.bits then p.bits else q.bits
  }

  predicate Overlaps(p: Prefix, q: Prefix)
    requires ValidPrefix(p) && ValidPrefix(q)
  {
    SameFamily(p.address, q.address) && Top(p.address, Shorter(p, q)) == Top(q.address, Shorter(p, q))
  }

  lemma {:induction false} DropTwice(n: nat, a: nat, b: nat)
    ensures Drop(n, a + b) == Drop(Drop(n, a), b)
    decreases a
  {
    if a > 0 {
      DropTwice(n / 2, a - 1, b);
    }
  }

  /** Addresses that agree on more bits agree on fewer. */
  lemma TopOfTop(a: Address, b: Address, fewer: nat, more: nat)
    requires SameFamily(a, b) && fewer <= more <= Width(a) && Top(a, more) == Top(b, more)
    ensures Top(a, fewer) == Top(b, fewer)
  {
    DropTwice(a.n, Width(a) - more, more - fewer);
    DropTwice(b.n, Width(b) - more, more - fewer);
  }

  /** The block of the longer prefix lies in the other whole, or not at all. */
  lemma NestedOrDisjoint(p: Prefix, q: Prefix)
    requires ValidPrefix(p) && ValidPrefix(q) && p.bits <= q.bits
    ensures (forall a :: Contains(q, a) ==> Contains(p, a)) || (forall a :: Contains(q, a) ==> !Contains(p, a))
  {
    forall a | Contains(q, a) ensures Contains(p, a) <==> Contains(p, q.address) {
      if SameFamily(p.address, q.address) {
        TopOfTop(a, q.address, p.bits, q.bits);
      }
    }
  }

  /** Comparing two blocks on the shorter prefix says whether some address lies in both. */
  lemma OverlapIsASharedAddress(p: Prefix, q: Prefix)
    requires ValidPrefix(p) && ValidPrefix(q)
    ensures Overlaps(p, q) <==> exists a :: ValidAddress(a) && Contains(p, a) && Contains(q, a)
  {
    if Overlaps(p, q) {
      var a := if p.bits < q.bits then q.address else p.address;
      assert ValidAddress(a) && Contains(p, a) && Contains(q, a);
    }
    if a :| ValidAddress(a) && Contains(p, a) && Contains(q, a) {
      TopOfTop(a, p.address, Shorter(p, q), p.bits);
      TopOfTop(a, q.address, Shorter(p, q), q.bits);
    }
  }

  // ---- Cluster-internal ranges ----

  function Quad(a: nat, b: nat): Address {
    V4((a * 0x100 + b) * 0x1_0000)
  }

  const TEN := Prefix(Quad(10, 0), 8)
  const ONE_SEVEN_TWO := Prefix(Quad(172, 16), 12)
  const ONE_NINE_TWO := Prefix(Quad(192, 168), 16)
  const CGNAT := Prefix(Quad(100, 64), 10)
  const UNIQUE_LOCAL := Prefix(V6(0xfc00_0000_0000_0000_0000_0000_0000_0000), 7)

  const INTERNAL_RANGES := [TEN, ONE_SEVEN_TWO, ONE_NINE_TWO, CGNAT, UNIQUE_LOCAL]

  /** `n` followed by `k` zero bits. */
  function Shifted(n: nat, k: nat): nat {
    if k == 0 then n else 2 * Shifted(n, k - 1)
  }

  /** A number keeps at least `v` without its last `k` bits exactly when it is at least `v` followed by `k` zeros. */
  lemma {:induction false} DropAtLeast(n: nat, k: nat, v: nat)
    ensures Drop(n, k) >= v <==> n >= Shifted(v, k)
    decreases k
  {
    if k > 0 {
      DropAtLeast(n / 2, k - 1, v);
    }
  }

  lemma DropIs(n: nat, k: nat, v: nat)
    ensures Drop(n, k) == v <==> Shifted(v, k) <= n < Shifted(v + 1, k)
  {
    DropAtLeast(n, k, v);
    DropAtLeast(n, k, v + 1);
  }

  lemma {:induction false} ShiftedTwice(n: nat, k: nat, m: nat)
    ensures Shifted(n, k + m) == Shifted(Shifted(n, k), m)
    decreases m
  {
    if m > 0 {
      ShiftedTwice(n, k, m - 1);
    }
  }

  lemma ShiftedNibble(n: nat)
    ensures Shifted(n, 4) == 0x10 * n
  {
    assert Shifted(n, 1) == 2 * Shifted(n, 0) == 2 * n;
    assert Shifted(n, 2) == 2 * Shifted(n, 1);
    assert Shifted(n, 3) == 2 * Shifted(n, 2);
    assert Shifted(n, 4) == 2 * Shifted(n, 3);
  }

  lemma ShiftedByte(n: nat)
    ensures Shifted(n, 8) == 0x100 * n
  {
    ShiftedNibble(n);
    ShiftedTwice(n, 4, 4);
    ShiftedNibble(0x10 * n);
  }

  lemma {:induction false} ShiftedBytes(n: nat, k: nat, j: nat)
    ensures Shifted(n, k + 8 * j) == Bytes(Shifted(n, k), j)
    decreases j
  {
    if j > 0 {
      ShiftedBytes(n, k, j - 1);
      ShiftedTwice(n, k + 8 * (j - 1), 8);
      ShiftedByte(Shifted(n, k + 8 * (j - 1)));
    }
  }

  /** A range whose prefix leaves `k` bits of the last whole byte and `j` bytes, as the numbers it runs over. */
  lemma RangeIs(p: Prefix, a: Address, v: nat, next: nat, k: nat, j: nat, end: nat)
    requires ValidPrefix(p) && Width(p.address) - p.bits == k + 8 * j && next == v + 1
    requires Bytes(Shifted(v, k), j) == p.address.n && Bytes(Shifted(next, k), j) == end
    ensures Contains(p, a) <==> SameFamily(p.address, a) && p.address.n <= a.n < end
  {
    ShiftedBytes(v, k, j);
    ShiftedBytes(v + 1, k, j);
    DropIs(a.n, k + 8 * j, v);
    DropIs(p.address.n, k + 8 * j, v);
    ShiftedGrows(v, k + 8 * j);
  }

  lemma {:induction false} ShiftedGrows(v: nat, k: nat)
    ensures Shifted(v, k) < Shifted(v + 1, k)
    decreases k
  {
    if k > 0 {
      ShiftedGrows(v, k - 1);
    }
  }

  lemma UniqueLocalIs(a: Address)
    ensures Contains(UNIQUE_LOCAL, a) <==>
      a.V6? && 0xfc00_0000_0000_0000_0000_0000_0000_0000 <= a.n < 0xfe00_0000_0000_0000_0000_0000_0000_0000
  {
    assert Shifted(0x7e, 1) == 0xfc && Shifted(0x7f, 1) == 0xfe;
    assert Bytes(0xfc, 4) == 0xfc_0000_0000 && Bytes(0xfe, 4) == 0xfe_0000_0000;
    assert Bytes(0xfc, 8) == 0xfc_0000_0000_0000_0000 && Bytes(0xfe, 8) == 0xfe_0000_0000_0000_0000;
    assert Bytes(0xfc, 12) == 0xfc_0000_0000_0000_0000_0000_0000 && Bytes(0xfe, 12) == 0xfe_0000_0000_0000_0000_0000_0000;
    assert Bytes(0xfc, 15) == 0xfc00_0000_0000_0000_0000_0000_0000_0000;
    assert Bytes(0xfe, 15) == 0xfe00_0000_0000_0000_0000_0000_0000_0000;
    RangeIs(UNIQUE_LOCAL, a, 0x7e, 0x7f, 1, 15, 0xfe00_0000_0000_0000_0000_0000_0000_0000);
  }

  lemma V4RangesAre(a: Address)
    ensures Contains(TEN, a) <==> a.V4? && 0x0a00_0000 <= a.n < 0x0b00_0000
    ensures Contains(ONE_SEVEN_TWO, a) <==> a.V4? && 0xac10_0000 <= a.n < 0xac20_0000
    ensures Contains(ONE_NINE_TWO, a) <==> a.V4? && 0xc0a8_0000 <= a.n < 0xc0a9_0000
    ensures Contains(CGNAT, a) <==> a.V4? && 0x6440_0000 <= a.n < 0x6480_0000
  {
    assert Shifted(0xac1, 4) == 0xac10 && Shifted(0xac2, 4) == 0xac20;
    assert Shifted(0x191, 6) == 0x6440 && Shifted(0x192, 6) == 0x6480;
    RangeIs(TEN, a, 10, 11, 0, 3, 0x0b00_0000);
    RangeIs(ONE_SEVEN_TWO, a, 0xac1, 0xac2, 4, 2, 0xac20_0000);
    RangeIs(ONE_NINE_TWO, a, 0xc0a8, 0xc0a9, 0, 2, 0xc0a9_0000);
    RangeIs(CGNAT, a, 0x191, 0x192, 6, 2, 0x6480_0000);
  }

  /** The ranges, as the addresses they run over: 10/8, 172.16/12, 192.168/16, 100.64/10 and fc00::/7. */
  lemma InternalAddresses(a: Address)
    requires ValidAddress(a)
    ensures (exists i :: InRange(i, a)) <==>
      if a.V4? then
        || 0x0a00_0000 <= a.n < 0x0b00_0000
        || 0xac10_0000 <= a.n < 0xac20_0000
        || 0xc0a8_0000 <= a.n < 0xc0a9_0000
        || 0x6440_0000 <= a.n < 0x6480_0000
      else
        0xfc00_0000_0000_0000_0000_0000_0000_0000 <= a.n < 0xfe00_0000_0000_0000_0000_0000_0000_0000
  {
    V4RangesAre(a);
    UniqueLocalIs(a);
    if i :| InRange(i, a) {
      assert i == 0 || i == 1 || i == 2 || i == 3 || i == 4;
    }
    assert InRange(0, a) <==> Contains(TEN, a);
    assert InRange(1, a) <==> Contains(ONE_SEVEN_TWO, a);
    assert InRange(2, a) <==> Contains(ONE_NINE_TWO, a);
    assert InRange(3, a) <==> Contains(CGNAT, a);
    assert InRange(4, a) <==> Contains(UNIQUE_LOCAL, a);
  }

  /** Some address of the host lies in some cluster-internal range. */
  ghost predicate Internal(host: Host)
    requires ValidHost(host)
  {
    exists i, a :: InRange(i, a) && Denotes(host, a)
  }

  predicate InRange(i: int, a: Address) {
    0 <= i < |INTERNAL_RANGES| && ValidAddress(a) && Contains(INTERNAL_RANGES[i], a)
  }

  method LooksClusterInternal(host: Host) returns (internal: bool)
    requires ValidHost(host)
    ensures internal <==> Internal(host)
  {
    var cidr := AsCidr(host);
    if cidr == [] {
      return false;
    }
    var p := cidr[0];
    var i := 0;
    while i < |INTERNAL_RANGES|
      invariant 0 <= i <= |INTERNAL_RANGES|
      invariant forall j, a :: 0 <= j < i && InRange(j, a) ==> !Denotes(host, a)
    {
      RangeIsHitIffOverlap(host, p, i);
      if Overlaps(INTERNAL_RANGES[i], p) {
        return true;
      }
      i := i + 1;
    }
    return false;
  }

  /** The block of a literal overlaps a range iff the literal itself has an address there. */
  lemma RangeIsHitIffOverlap(host: Host, p: Prefix, i: nat)
    requires ValidHost(host) && AsCidr(host) == [p] && i < |INTERNAL_RANGES|
    ensures Overlaps(INTERNAL_RANGES[i], p) <==> exists a :: InRange(i, a) && Denotes(host, a)
  {
    var range := INTERNAL_RANGES[i];
    if host.Ip? {
      if Mapped(host.address) {
        MappedIsNotInternal(host.address, range, i);
      } else {
        assert Overlaps(range, p) <==> InRange(i, host.address);
      }
    } else {
      OverlapIsASharedAddress(range, p);
      if Overlaps(range, p) {
        var a :| ValidAddress(a) && Contains(range, a) && Contains(p, a);
        assert InRange(i, a) && Denotes(host, a);
      }
    }
  }

  lemma DropNibble(n: nat, k: nat)
    ensures Drop(n, 4 + k) == Drop(n / 0x10, k)
  {
    assert Drop(n, 4 + k) == Drop(n / 2, 3 + k) == Drop(n / 2 / 2, 2 + k);
    assert Drop(n / 2 / 2, 2 + k) == Drop(n / 2 / 2 / 2, 1 + k) == Drop(n / 2 / 2 / 2 / 2, k);
    assert n / 2 / 2 / 2 / 2 == n / 0x10;
  }

  lemma DropByte(n: nat, k: nat)
    ensures Drop(n, 8 + k) == Drop(n / 0x100, k)
  {
    DropNibble(n, 4 + k);
    DropNibble(n / 0x10, k);
  }

  /** A number of `j` bytes has no bits left when its last 8 * j are dropped. */
  lemma {:induction false} DropAllBytes(n: nat, j: nat, k: nat)
    requires n < Bytes(1, j)
    ensures Drop(n, 8 * j + k) == 0
    decreases j, k
  {
    if j > 0 {
      DropByte(n, 8 * (j - 1) + k);
      DropAllBytes(n / 0x100, j - 1, k);
    } else if k > 0 {
      DropAllBytes(n / 2, 0, k - 1);
    }
  }

  /** `n` followed by `j` zero bytes. */
  function Bytes(n: nat, j: nat): nat {
    if j == 0 then n else 0x100 * Bytes(n, j - 1)
  }

  lemma {:induction false} DropZeroBytes(n: nat, j: nat, k: nat)
    ensures Drop(Bytes(n, j), 8 * j + k) == Drop(n, k)
  {
    if j > 0 {
      DropByte(Bytes(n, j), 8 * (j - 1) + k);
      DropZeroBytes(n, j - 1, k);
    }
  }

  /** An IPv4-mapped literal is compared as the first 32 bits of an IPv6 address, which no range starts with. */
  lemma MappedIsNotInternal(a: Address, range: Prefix, i: nat)
    requires ValidAddress(a) && Mapped(a) && i < |INTERNAL_RANGES| && range == INTERNAL_RANGES[i]
    ensures !Overlaps(range, Prefix(a, 32)) && !Contains(range, a)
  {
    if range == UNIQUE_LOCAL {
      assert Bytes(1, 3) == 0x100_0000 && Bytes(1, 6) == 0x1_0000_0000_0000;
      DropAllBytes(a.n, 6, 73);
      DropZeroBytes(0xfc, 15, 1);
      assert Bytes(0xfc, 4) == 0xfc_0000_0000;
      assert Bytes(0xfc, 8) == 0xfc_0000_0000_0000_0000;
      assert Bytes(0xfc, 12) == 0xfc_0000_0000_0000_0000_0000_0000;
      assert Bytes(0xfc, 15) == UNIQUE_LOCAL.address.n;
    }
  }

  // ---- What the block of a literal contains beyond the literal ----

  /** A literal the parsers give the length of an IPv4 block, and the width of an IPv6 one. */
  predicate IsMappedLiteral(h: Host) {
    h.Ip? && Mapped(h.address)
  }

  /** ::/32, which is what such a literal becomes. */
  predicate InZeros(a: Address) {
    a.V6? && Drop(a.n, 96) == 0
  }

  /** The block of a host contains what the host denotes; a mapped literal's contains all of ::/32. */
  lemma BlockOfHost(h: Host, a: Address)
    requires ValidHost(h)
    ensures AsCidr(h) != [] && Contains(AsCidr(h)[0], a) <==> Denotes(h, a) || (IsMappedLiteral(h) && InZeros(a))
  {
    if IsMappedLiteral(h) {
      assert Bytes(1, 3) == 0x100_0000 && Bytes(1, 6) == 0x1_0000_0000_0000;
      DropAllBytes(h.address.n, 6, 48);
    }
  }
}
