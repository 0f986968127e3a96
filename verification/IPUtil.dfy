/** Byte-level IPv4 address arithmetic (network/subnets/ip_util.go) and its refinement to integers. */
module IPUtil {
  import opened Arithmetic
  import opened Outcomes

  predicate IsByte(b: int)
  {
    0 <= b < 256
  }

  /** Four bytes, the most significant first. */
  type IP = s: seq<nat> | |s| == 4 && IsByte(s[0]) && IsByte(s[1]) && IsByte(s[2]) && IsByte(s[3])
    witness [0, 0, 0, 0]

  /** A network address with the mask of `ones` leading one bits. */
  datatype IPNet = IPNet(ip: IP, ones: nat)

  const LIMIT := 0x1_0000_0000

  /** The big-endian number an address stands for. */
  function Value(ip: IP): (v: nat)
    ensures v < LIMIT
  {
    ((ip[0] * 256 + ip[1]) * 256 + ip[2]) * 256 + ip[3]
  }

  lemma ValueInjective(a: IP, b: IP)
    requires Value(a) == Value(b)
    ensures a == b
  {
    QuotientUnique((a[0] * 256 + a[1]) * 256 + a[2], a[3], (b[0] * 256 + b[1]) * 256 + b[2], b[3], 256);
    QuotientUnique(a[0] * 256 + a[1], a[2], b[0] * 256 + b[1], b[2], 256);
    QuotientUnique(a[0], a[1], b[0], b[1], 256);
  }

  function FromValue(v: nat): (ip: IP)
    requires v < LIMIT
    ensures Value(ip) == v
  {
    var a := v / 256;
    var b := a / 256;
    [b / 256, b % 256, a % 256, v % 256]
  }

  /** How many zero bits byte i of net.CIDRMask(ones, 32) has. */
  function HostBits(ones: nat, i: nat): (z: nat)
    requires ones <= 32 && i < 4
    ensures z <= 8
  {
    if ones >= 8 * i + 8 then 0 else if ones <= 8 * i then 8 else 8 * i + 8 - ones
  }

  /** Byte i of net.CIDRMask(ones, 32). */
  function MaskByte(ones: nat, i: nat): (m: nat)
    requires ones <= 32 && i < 4
    ensures IsByte(m)
  {
    Pow2Of8();
    Pow2Monotone(HostBits(ones, i), 8);
    256 - Pow2(HostBits(ones, i))
  }

  /** The address with the bits beyond the mask cleared. */
  function Mask(ip: IP, ones: nat): (r: IP)
    requires ones <= 32
  {
    MaskedByte(ip, ones, 0);
    MaskedByte(ip, ones, 1);
    MaskedByte(ip, ones, 2);
    MaskedByte(ip, ones, 3);
    [And(ip[0], MaskByte(ones, 0)), And(ip[1], MaskByte(ones, 1)),
     And(ip[2], MaskByte(ones, 2)), And(ip[3], MaskByte(ones, 3))]
  }

  /** Networks as net.ParseCIDR returns them: no bit set beyond the mask. */
  predicate Canonical(n: IPNet)
  {
    n.ones <= 32 && LowBits(Value(n.ip), 32 - n.ones) == 0
  }

  type CIDR = n: IPNet | Canonical(n) witness IPNet([0, 0, 0, 0], 0)

  /** net.IPNet.Contains: the masked bytes agree. */
  predicate Contains(n: CIDR, ip: IP)
  {
    Mask(n.ip, n.ones) == Mask(ip, n.ones)
  }

  function Base(n: CIDR): (b: nat)
    ensures b < LIMIT
  {
    Value(n.ip)
  }

  function Size(n: CIDR): (s: nat)
    ensures s > 0
  {
    Pow2(32 - n.ones)
  }

  /** Address v lies in the block of n. */
  predicate InBlock(n: CIDR, v: int)
  {
    Base(n) <= v < Base(n) + Size(n)
  }

  predicate Equals(a: CIDR, b: CIDR)
  {
    a.ip == b.ip && a.ones == b.ones
  }

  predicate Overlaps(a: CIDR, b: CIDR)
  {
    Contains(a, b.ip) || Contains(b, a.ip)
  }

  // ----- the mask on integers

  /** What the mask clears of byte i. */
  function Low(ip: IP, ones: nat, i: nat): (r: nat)
    requires ones <= 32 && i < 4
    ensures r <= ip[i]
  {
    LowBits(ip[i], HostBits(ones, i))
  }

  lemma MaskedByte(ip: IP, ones: nat, i: nat)
    requires ones <= 32 && i < 4
    ensures And(ip[i], MaskByte(ones, i)) == ip[i] - Low(ip, ones, i)
    ensures Or(ip[i], 255 - MaskByte(ones, i)) == ip[i] - Low(ip, ones, i) + Pow2(HostBits(ones, i)) - 1
  {
    Pow2Of8();
    AndWithPrefixMask(ip[i], HostBits(ones, i), 8);
    OrWithSuffixMask(ip[i], HostBits(ones, i));
  }

  /** The address the cleared bits make up. */
  function LowBytes(ip: IP, ones: nat): (r: IP)
    requires ones <= 32
  {
    [Low(ip, ones, 0), Low(ip, ones, 1), Low(ip, ones, 2), Low(ip, ones, 3)]
  }

  /** Bytes before the one the mask ends in are kept, bytes after it are cleared. */
  lemma LowAround(ip: IP, ones: nat, i: nat)
    requires ones < 32 && i < 4
    ensures i < ones / 8 ==> Low(ip, ones, i) == 0
    ensures i == ones / 8 ==> Low(ip, ones, i) == ip[i] % Pow2(8 - ones % 8)
    ensures i > ones / 8 ==> Low(ip, ones, i) == ip[i]
  {
    LowBitsIsMod(ip[i], HostBits(ones, i));
    Pow2Of8();
  }

  /** The host part of an address is the sum of the host parts of its bytes. */
  lemma HostPart(ip: IP, ones: nat)
    requires ones <= 32
    ensures Value(ip) % Pow2(32 - ones) == Value(LowBytes(ip, ones))
  {
    hide Low, Pow2;
    if ones == 32 {
      NoHostBits(ip);
    } else {
      LowAround(ip, ones, 0);
      LowAround(ip, ones, 1);
      LowAround(ip, ones, 2);
      LowAround(ip, ones, 3);
      var z := 8 - ones % 8;
      CutSize(ones, z);
      var m, k := Pow2(z), Pow2(8 - z);
      if ones < 8 {
        ModAtDigit(0, ip[0], (ip[1] * 256 + ip[2]) * 256 + ip[3], m, k, 0x100_0000);
      } else if ones < 16 {
        ModAtDigit(ip[0], ip[1], ip[2] * 256 + ip[3], m, k, 0x1_0000);
      } else if ones < 24 {
        ModAtDigit(ip[0] * 256 + ip[1], ip[2], ip[3], m, k, 256);
      } else {
        ModAtDigit((ip[0] * 256 + ip[1]) * 256 + ip[2], ip[3], 0, m, k, 1);
      }
    }
  }

  lemma NoHostBits(ip: IP)
    ensures Value(ip) % Pow2(0) == Value(LowBytes(ip, 32)) == 0
  {
  }

  lemma CutSize(ones: nat, z: nat)
    requires ones < 32 && z == 8 - ones % 8
    ensures Pow2(z) * Pow2(8 - z) == 256
    ensures Pow2(32 - ones) ==
      Pow2(z) * (if ones < 8 then 0x100_0000 else if ones < 16 then 0x1_0000 else if ones < 24 then 256 else 1)
  {
    Pow2OfBytes(8);
    Pow2OfBytes(32 - ones - z);
    Pow2Add(z, 8 - z);
    Pow2Add(z, 32 - ones - z);
  }

  /** The mask clears the host part. */
  lemma MaskValue(ip: IP, ones: nat)
    requires ones <= 32
    ensures forall i | 0 <= i < 4 :: Mask(ip, ones)[i] == ip[i] - Low(ip, ones, i)
    ensures Value(Mask(ip, ones)) == Value(ip) - Value(ip) % Pow2(32 - ones)
  {
    MaskedByte(ip, ones, 0);
    MaskedByte(ip, ones, 1);
    MaskedByte(ip, ones, 2);
    MaskedByte(ip, ones, 3);
    HostPart(ip, ones);
  }

  /** Canonical networks are the fixed points of the byte-wise mask. */
  lemma CanonicalIsMasked(n: IPNet)
    requires n.ones <= 32
    ensures Canonical(n) <==> Mask(n.ip, n.ones) == n.ip
  {
    hide Mask;
    MaskValue(n.ip, n.ones);
    LowBitsIsMod(Value(n.ip), 32 - n.ones);
    if Value(Mask(n.ip, n.ones)) == Value(n.ip) {
      ValueInjective(Mask(n.ip, n.ones), n.ip);
    }
  }

  /** A canonical network starts at a multiple of its size and ends within the address space. */
  lemma CanonicalAligned(n: CIDR)
    ensures n.ones <= 32
    ensures Base(n) % Size(n) == 0
    ensures Base(n) + Size(n) <= LIMIT
  {
    LowBitsIsMod(Base(n), 32 - n.ones);
    Pow2OfBytes(32);
    Pow2Add(32 - n.ones, n.ones);
    AlignedEnd(Base(n), Size(n), Pow2(n.ones));
  }

  lemma FitsAddressSpace(n: CIDR)
    ensures n.ones <= 32 && Base(n) + Size(n) <= LIMIT
  {
    CanonicalAligned(n);
  }

  lemma AlignedEnd(b: nat, s: nat, k: nat)
    requires s > 0 && b % s == 0 && b < s * k
    ensures b + s <= s * k
  {
    var q := b / s;
    assert b == q * s;
    assert q < k by {
      if q >= k {
        MulMonotone(k, q, s);
      }
    }
    MulMonotone(q + 1, k, s);
  }

  /** The byte-wise mask test of Contains is the interval test on integers. */
  lemma ContainsIsInterval(n: CIDR, ip: IP)
    ensures Contains(n, ip) <==> InBlock(n, Value(ip))
  {
    hide Mask, Value, Pow2;
    CanonicalIsMasked(n);
    MaskValue(ip, n.ones);
    CanonicalAligned(n);
    BlockOf(Base(n), Size(n), Value(ip));
    if Value(Mask(ip, n.ones)) == Value(n.ip) {
      ValueInjective(Mask(ip, n.ones), n.ip);
    }
  }

  lemma BlockOf(b: nat, s: nat, v: nat)
    requires s > 0 && b % s == 0
    ensures v - v % s == b <==> b <= v < b + s
  {
    if b <= v < b + s {
      DivModUnique(v, b / s, s, v - b);
    }
  }

  /** CIDR blocks nest or are disjoint. */
  lemma NestedOrDisjoint(a: CIDR, b: CIDR)
    requires a.ones <= b.ones
    ensures (Base(a) <= Base(b) && Base(b) + Size(b) <= Base(a) + Size(a))
         || Base(b) + Size(b) <= Base(a)
         || Base(a) + Size(a) <= Base(b)
  {
    hide Canonical, Value;
    CanonicalAligned(a);
    CanonicalAligned(b);
    Pow2Add(32 - b.ones, b.ones - a.ones);
    AlignedNesting(Base(a), Size(a), Base(b), Size(b), Pow2(b.ones - a.ones));
  }

  lemma AlignedNesting(a: nat, t: nat, b: nat, s: nat, k: nat)
    requires s > 0 && k > 0 && t == s * k && t > 0 && a % t == 0 && b % s == 0
    ensures (a <= b && b + s <= a + t) || b + s <= a || a + t <= b
  {
    var p, q := a / t * k, b / s;
    assert a == a / t * t == p * s by { MulAssoc(a / t, k, s); }
    assert b == q * s;
    assert (p + k) * s == p * s + t;
    if q < p {
      MulMonotone(q + 1, p, s);
    } else if q < p + k {
      MulMonotone(p, q, s);
      MulMonotone(q + 1, p + k, s);
    } else {
      MulMonotone(p + k, q, s);
    }
  }

  lemma MulAssoc(x: int, y: int, z: int)
    ensures x * (z * y) == x * y * z
  {
  }

  /** The two blocks share no address. */
  predicate Disjoint(a: CIDR, b: CIDR)
  {
    Base(a) + Size(a) <= Base(b) || Base(b) + Size(b) <= Base(a)
  }

  /** overlaps holds exactly when the two blocks share an address. */
  lemma OverlapsIsSharing(a: CIDR, b: CIDR)
    ensures Overlaps(a, b) <==> exists v :: InBlock(a, v) && InBlock(b, v)
    ensures Overlaps(a, b) <==> !Disjoint(a, b)
  {
    hide Contains, Canonical, Value, Pow2;
    ContainsIsInterval(a, b.ip);
    ContainsIsInterval(b, a.ip);
    assert InBlock(a, Base(a)) && InBlock(b, Base(b));
    if a.ones <= b.ones {
      NestedOrDisjoint(a, b);
    } else {
      NestedOrDisjoint(b, a);
    }
  }

  /** Networks of one size that share an address are one network. */
  lemma SameSizeSharing(a: CIDR, b: CIDR)
    requires a.ones == b.ones && !Disjoint(a, b)
    ensures a == b
  {
    hide Canonical, Value, Pow2;
    NestedOrDisjoint(a, b);
    ValueInjective(a.ip, b.ip);
  }

  // ----- stepping and the last address

  /** The following address, with carry; None is the panic past 255.255.255.255. */
  method Next(ip: IP) returns (r: Option<IP>)
    ensures r.None? <==> Value(ip) == LIMIT - 1
    ensures r.Some? ==> Value(r.value) == Value(ip) + 1
  {
    var next: IP := ip;
    var i := 3;
    while i >= 0
      invariant -1 <= i <= 3
      invariant forall j | 0 <= j <= i :: next[j] == ip[j]
      invariant forall j | i < j < 4 :: ip[j] == 255 && next[j] == 0
    {
      next := next[i := (next[i] + 1) % 256];
      if next[i] != 0 {
        return Some(next);
      }
      i := i - 1;
    }
    return None;
  }

  /** The last address of a network: every bit beyond the mask set. */
  method Max(n: CIDR) returns (r: IP)
    ensures Value(r) == Base(n) + Size(n) - 1
  {
    r := [0, 0, 0, 0];
    for i := 0 to 4
      invariant forall j | 0 <= j < i :: r[j] == n.ip[j] + Fill(n.ones)[j]
    {
      MaxByte(n, i);
      r := r[i := Or(n.ip[i], 255 - MaskByte(n.ones, i))];
    }
    ValueSum(r, n.ip, Fill(n.ones));
    FillValue(n.ones);
  }

  /** The bits beyond the mask, byte by byte. */
  function Fill(ones: nat): (r: IP)
    requires ones <= 32
  {
    Pow2Of8();
    Pow2Monotone(HostBits(ones, 0), 8);
    Pow2Monotone(HostBits(ones, 1), 8);
    Pow2Monotone(HostBits(ones, 2), 8);
    Pow2Monotone(HostBits(ones, 3), 8);
    [Pow2(HostBits(ones, 0)) - 1, Pow2(HostBits(ones, 1)) - 1, Pow2(HostBits(ones, 2)) - 1, Pow2(HostBits(ones, 3)) - 1]
  }

  lemma FillValue(ones: nat)
    requires ones <= 32
    ensures Value(Fill(ones)) == Pow2(32 - ones) - 1
  {
    if ones < 32 {
      FillAround(ones, 0);
      FillAround(ones, 1);
      FillAround(ones, 2);
      FillAround(ones, 3);
      CutSize(ones, 8 - ones % 8);
    }
  }

  lemma FillAround(ones: nat, i: nat)
    requires ones < 32 && i < 4
    ensures Fill(ones)[i] == if i < ones / 8 then 0 else if i == ones / 8 then Pow2(8 - ones % 8) - 1 else 255
  {
    Pow2Of8();
    assert Fill(ones)[i] == Pow2(HostBits(ones, i)) - 1;
  }

  lemma ValueSum(c: IP, a: IP, b: IP)
    requires c[0] == a[0] + b[0] && c[1] == a[1] + b[1] && c[2] == a[2] + b[2] && c[3] == a[3] + b[3]
    ensures Value(c) == Value(a) + Value(b)
  {
  }

  lemma MaxByte(n: CIDR, i: nat)
    requires i < 4
    ensures Or(n.ip[i], 255 - MaskByte(n.ones, i)) == n.ip[i] + Fill(n.ones)[i] < 256
  {
    hide Value;
    CanonicalIsMasked(n);
    MaskValue(n.ip, n.ones);
    MaskedByte(n.ip, n.ones, i);
    ByteEnd(n.ip[i], HostBits(n.ones, i));
  }

  lemma ByteEnd(x: nat, z: nat)
    requires z <= 8 && x < 256 && LowBits(x, z) == 0
    ensures x + Pow2(z) <= 256
  {
    LowBitsIsMod(x, z);
    Pow2Of8();
    Pow2Add(z, 8 - z);
    AlignedEnd(x, Pow2(z), Pow2(8 - z));
  }
}
