/** Address blocks (crates/tunnel-common/src/cidr.rs), on parsed addresses as integers. */
module Cidr {
  datatype Family = V4 | V6

  function Width(f: Family): nat {
    match f
    case V4 => 32
    case V6 => 128
  }

  datatype IpAddr = IpAddr(family: Family, bits: nat)

  /** A parsed block: a network address, of which the low bits may be set, and a prefix length. */
  datatype Block = Block(net: IpAddr, prefix: nat)

  ghost predicate ValidIp(ip: IpAddr) {
    ip.bits < Pow2(Width(ip.family))
  }

  /** What parsing ensures. */
  ghost predicate ValidBlock(b: Block) {
    ValidIp(b.net) && b.prefix <= Width(b.net.family)
  }

  // ---------------------------------------------------------------- bits

  function Pow2(n: nat): (p: nat)
    ensures p > 0
  {
    if n == 0 then 1 else 2 * Pow2(n - 1)
  }

  /** The bits set in both. */
  function And(a: nat, b: nat): nat {
    if a == 0 || b == 0 then 0 else 2 * And(a / 2, b / 2) + (if a % 2 == 1 && b % 2 == 1 then 1 else 0)
  }

  /** A value of `width` bits shifted left, without the bits pushed out. */
  function Shl(a: nat, n: nat, width: nat): nat {
    a * Pow2(n) % Pow2(width)
  }

  function Mask(width: nat, prefix: nat): nat
    requires prefix <= width
  {
    if prefix == 0 then 0 else Shl(Pow2(width) - 1, width - prefix, width)
  }

  /** The source's test. */
  function Matches(b: Block, ip: IpAddr): bool
    requires b.prefix <= Width(b.net.family)
  {
    b.net.family == ip.family &&
    (var mask := Mask(Width(ip.family), b.prefix);
     And(b.net.bits, mask) == And(ip.bits, mask))
  }

  // ---------------------------------------------------------------- the mask is a division

  lemma {:induction false} Pow2Add(m: nat, n: nat)
    ensures Pow2(m + n) == Pow2(m) * Pow2(n)
  {
    if m > 0 {
      Pow2Add(m - 1, n);
      assert Pow2(m) * Pow2(n) == 2 * (Pow2(m - 1) * Pow2(n));
    }
  }


  lemma {:induction false} MulLess(a: nat, b: nat, n: nat)
    ensures a < b ==> a * n + n <= b * n
    decreases b
  {
    if a < b {
      MulLess(a, b - 1, n);
      assert b * n == (b - 1) * n + n;
    }
  }

  /** Quotient and remainder are unique. */
  lemma DivMod(x: nat, m: nat, q: nat, r: nat)
    requires x == q * m + r && r < m
    ensures x / m == q && x % m == r
  {
    var d := x / m;
    assert x == d * m + x % m;
    MulLess(d, q, m);
    MulLess(q, d, m);
  }

  /** All ones shifted left, what does not fit cut off. */
  lemma ShlOnes(p: nat, l: nat)
    requires 0 < l <= p
    ensures (p - 1) * l % p == p - l
  {
    assert (p - 1) * l == (l - 1) * p + (p - l);
    DivMod((p - 1) * l, p, l - 1, p - l);
  }

  lemma MaskIsHigh(width: nat, prefix: nat)
    requires prefix <= width
    ensures Mask(width, prefix) == Pow2(width) - Pow2(width - prefix)
  {
    if prefix > 0 {
      Pow2Mono(width - prefix, width);
      ShlOnes(Pow2(width), Pow2(width - prefix));
    }
  }

  lemma {:induction false} Pow2Mono(m: nat, n: nat)
    requires m <= n
    ensures Pow2(m) <= Pow2(n)
    decreases n
  {
    if m < n {
      Pow2Mono(m, n - 1);
    }
  }

  /** With all ones the number itself. */
  lemma {:induction false} AndOnes(x: nat, width: nat)
    requires x < Pow2(width)
    ensures And(x, Pow2(width) - 1) == x
  {
    if x > 0 {
      assert (Pow2(width) - 1) / 2 == Pow2(width - 1) - 1;
      AndOnes(x / 2, width - 1);
    }
  }

  /** With the high bits set, the number less its low bits. */
  lemma {:induction false} AndHigh(x: nat, width: nat, low: nat)
    requires x < Pow2(width) && low <= width
    ensures Pow2(low) <= Pow2(width)
    ensures And(x, Pow2(width) - Pow2(low)) == x - x % Pow2(low)
  {
    if low == 0 {
      AndOnes(x, width);
    } else {
      var m, n := Pow2(width - 1), Pow2(low - 1);
      AndHigh(x / 2, width - 1, low - 1);
      assert (2 * m - 2 * n) / 2 == m - n;
      HalfMod(x, n);
      assert And(x, 2 * m - 2 * n) == 2 * And(x / 2, m - n);
    }
  }

  lemma HalfMod(x: nat, n: nat)
    requires n > 0
    ensures x % (2 * n) == 2 * (x / 2 % n) + x % 2
  {
    var q, r := x / 2 / n, x / 2 % n;
    assert x / 2 == q * n + r;
    assert x == q * (2 * n) + (2 * r + x % 2);
    DivMod(x, 2 * n, q, 2 * r + x % 2);
  }

  // ---------------------------------------------------------------- blocks are intervals

  /** The size of a block, and where it begins. */
  ghost function Size(b: Block): nat
    requires b.prefix <= Width(b.net.family)
  {
    Pow2(Width(b.net.family) - b.prefix)
  }

  ghost function Base(b: Block): nat
    requires b.prefix <= Width(b.net.family)
  {
    Down(b.net.bits, Size(b))
  }

  /** The multiple of `m` at or below `x`. */
  function Down(x: nat, m: nat): nat
    requires m > 0
  {
    x / m * m
  }

  ghost predicate InBlock(b: Block, ip: IpAddr)
    requires b.prefix <= Width(b.net.family)
  {
    b.net.family == ip.family && Base(b) <= ip.bits < Base(b) + Size(b)
  }

  lemma AndMask(x: nat, width: nat, prefix: nat)
    requires x < Pow2(width) && prefix <= width
    ensures And(x, Mask(width, prefix)) == Down(x, Pow2(width - prefix))
  {
    var l := Pow2(width - prefix);
    MaskIsHigh(width, prefix);
    AndHigh(x, width, width - prefix);
    Floor(x, l);
  }

  lemma Floor(x: nat, m: nat)
    requires m > 0
    ensures x - x % m == Down(x, m)
  {
  }

  /** The mask test is membership in an aligned interval of 2^(width - prefix) addresses. */
  lemma MatchesIsInterval(b: Block, ip: IpAddr)
    requires ValidBlock(b) && ValidIp(ip)
    ensures Matches(b, ip) <==> InBlock(b, ip)
  {
    if b.net.family == ip.family {
      MaskedAlike(b.net.bits, ip.bits, Width(ip.family), b.prefix);
    }
  }

  lemma MaskedAlike(x: nat, y: nat, width: nat, prefix: nat)
    requires x < Pow2(width) && y < Pow2(width) && prefix <= width
    ensures var mask, m := Mask(width, prefix), Pow2(width - prefix);
      And(x, mask) == And(y, mask) <==> Down(x, m) <= y < Down(x, m) + m
  {
    AndMask(x, width, prefix);
    AndMask(y, width, prefix);
    SameQuotient(x, y, Pow2(width - prefix));
  }

  /** A block of full length is one address: 32 bits of the one family, 128 of the other. */
  lemma SingleAddress(b: Block, ip: IpAddr)
    requires ValidBlock(b) && ValidIp(ip) && b.prefix == if b.net.family == V4 then 32 else 128
    ensures Matches(b, ip) <==> ip == b.net
  {
    MatchesIsInterval(b, ip);
    assert Size(b) == 1 && Base(b) == b.net.bits;
  }

  lemma Squared(n: nat, p: nat, m: nat)
    requires Pow2(n) == p && m == n + n
    ensures Pow2(m) == p * p
  {
    Pow2Add(n, n);
  }

  /** Addresses have 32 or 128 bits. */
  lemma AddressRange(ip: IpAddr)
    ensures ValidIp(ip) <==>
      ip.bits < match ip.family
        case V4 => 0x1_0000_0000
        case V6 => 0x1_0000_0000_0000_0000_0000_0000_0000_0000
  {
    Squared(4, 0x10, 8);
    Squared(8, 0x100, 16);
    Squared(16, 0x1_0000, 32);
    Squared(32, 0x1_0000_0000, 64);
    Squared(64, 0x1_0000_0000_0000_0000, 128);
  }

  /** A block of no length is the family. */
  lemma WholeFamily(b: Block, ip: IpAddr)
    requires ValidBlock(b) && ValidIp(ip) && b.prefix == 0
    ensures Matches(b, ip) <==> ip.family == b.net.family
  {
    MatchesIsInterval(b, ip);
    var size := Size(b);
    assert b.net.bits / size == 0 by {
      DivMod(b.net.bits, size, 0, b.net.bits);
    }
    assert Base(b) == 0;
  }

  lemma SameQuotient(x: nat, y: nat, m: nat)
    requires m > 0
    ensures Down(x, m) == Down(y, m) <==> Down(x, m) <= y < Down(x, m) + m
  {
    var q := x / m;
    assert y == y / m * m + y % m;
    if q * m <= y < q * m + m {
      DivMod(y, m, q, y - q * m);
    }
  }

  /**
   Two blocks of one family are nested or disjoint: if any address is in both, the one with the
   longer prefix lies within the other.
   */
  lemma NestedOrDisjoint(a: Block, b: Block, ip: IpAddr, other: IpAddr)
    requires ValidBlock(a) && ValidBlock(b) && ValidIp(ip) && ValidIp(other) && a.prefix <= b.prefix
    requires Matches(a, ip) && Matches(b, ip) && Matches(b, other)
    ensures Matches(a, other)
  {
    MatchesIsInterval(a, ip);
    MatchesIsInterval(b, ip);
    MatchesIsInterval(b, other);
    MatchesIsInterval(a, other);
    Sizes(a, b);
    Aligned(Pow2(b.prefix - a.prefix), Size(b), Size(a), a.net.bits, b.net.bits, ip.bits, other.bits);
  }

  lemma Sizes(a: Block, b: Block)
    requires a.net.family == b.net.family && a.prefix <= b.prefix <= Width(a.net.family)
    ensures Size(a) == Pow2(b.prefix - a.prefix) * Size(b)
  {
    Pow2Add(b.prefix - a.prefix, Width(a.net.family) - b.prefix);
  }

  /** An aligned interval of `n` that meets an aligned interval of `m == k * n` lies in it. */
  lemma Aligned(k: nat, n: nat, m: nat, a: nat, b: nat, x: nat, y: nat)
    requires m == k * n && n > 0 && m > 0
    requires Down(a, m) <= x < Down(a, m) + m
    requires Down(b, n) <= x < Down(b, n) + n && Down(b, n) <= y < Down(b, n) + n
    ensures Down(a, m) <= y < Down(a, m) + m
  {
    var i, j := a / m, b / n;
    var l := i * k;
    MulMul(i, k, n);
    MulLess(j, l, n);
    MulLess(l, j, n);
    MulLess(j, l + k, n);
    MulLess(l + k, j, n);
  }

  lemma MulMul(i: nat, k: nat, n: nat)
    ensures i * (k * n) == i * k * n && i * k * n + k * n == (i * k + k) * n
  {
  }
}
