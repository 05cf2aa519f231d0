/** `is_safe_ip`: which addresses an outgoing request may reach. */
module SafeIp {
  type octet = x: nat | x < 0x100
  type segment = x: nat | x < 0x1_0000

  datatype Ip = V4(a: octet, b: octet, c: octet, d: octet) | V6(segments: seq<segment>)

  type IpAddr = ip: Ip | ip.V6? ==> |ip.segments| == 8 witness V4(0, 0, 0, 0)

  // --- The tests as the standard library and the source make them ------------------------------

  predicate IsLoopback4(ip: Ip)
    requires ip.V4?
  {
    ip.a == 127
  }

  predicate IsPrivate(ip: Ip)
    requires ip.V4?
  {
    ip.a == 10 || (ip.a == 172 && 16 <= ip.b <= 31) || (ip.a == 192 && ip.b == 168)
  }

  predicate IsLinkLocal(ip: Ip)
    requires ip.V4?
  {
    ip.a == 169 && ip.b == 254
  }

  predicate IsMulticast4(ip: Ip)
    requires ip.V4?
  {
    224 <= ip.a <= 239
  }

  predicate IsDocumentation(ip: Ip)
    requires ip.V4?
  {
    || (ip.a == 192 && ip.b == 0 && ip.c == 2)
    || (ip.a == 198 && ip.b == 51 && ip.c == 100)
    || (ip.a == 203 && ip.b == 0 && ip.c == 113)
  }

  /** `x & mask` for a mask that keeps all but the low bits, of which there are `low - 1` worth. */
  function KeepHigh(x: nat, low: nat): nat
    requires low >= 1
  {
    x - x % low
  }

  predicate IsReserved(ip: Ip)
    requires ip.V4?
  {
    || ip.a == 0
    || (ip.a == 100 && KeepHigh(ip.b, 64) == 64)
    || (ip.a == 192 && ip.b == 0 && ip.c == 0)
    || (ip.a == 198 && (ip.b == 18 || ip.b == 19))
    || ip.a >= 240
  }

  predicate IsSafeV4(ip: Ip)
    requires ip.V4?
  {
    && !IsLoopback4(ip) && !IsPrivate(ip) && !IsLinkLocal(ip) && !IsMulticast4(ip)
    && ip != V4(0, 0, 0, 0) && !IsDocumentation(ip) && ip != V4(255, 255, 255, 255) && !IsReserved(ip)
  }

  /** An IPv6 address that embeds an IPv4 one, mapped or compatible. */
  predicate EmbedsV4(ip: IpAddr)
    requires ip.V6?
  {
    (forall i :: 0 <= i < 5 ==> ip.segments[i] == 0) && (ip.segments[5] == 0 || ip.segments[5] == 0xffff)
  }

  function Embedded(ip: IpAddr): IpAddr
    requires ip.V6?
  {
    V4(ip.segments[6] / 256, ip.segments[6] % 256, ip.segments[7] / 256, ip.segments[7] % 256)
  }

  predicate IsLoopback(ip: IpAddr) {
    if ip.V4? then IsLoopback4(ip) else ip.segments == [0, 0, 0, 0, 0, 0, 0, 1]
  }

  predicate IsSafeIp(ip: IpAddr) {
    if ip.V4? then IsSafeV4(ip)
    else if EmbedsV4(ip) then IsSafeV4(Embedded(ip))
    else
      && !IsLoopback(ip)
      && ip.segments != [0, 0, 0, 0, 0, 0, 0, 0]
      && KeepHigh(ip.segments[0], 0x100) != 0xff00
      && KeepHigh(ip.segments[0], 0x200) != 0xfc00
      && KeepHigh(ip.segments[0], 0x40) != 0xfe80
  }

  // --- What it comes to ------------------------------------------------------------------------

  /** `n` is in the block that starts at `a.b.c.0` and holds `size` addresses. */
  predicate InBlock(n: nat, a: octet, b: octet, c: octet, size: nat) {
    var start := ((a * 256 + b) * 256 + c) * 256;
    start <= n < start + size
  }

  /** The address as a 32-bit number. */
  function Number(ip: Ip): nat
    requires ip.V4?
  {
    ((ip.a * 256 + ip.b) * 256 + ip.c) * 256 + ip.d
  }

  lemma MaskOf64(x: octet)
    ensures KeepHigh(x, 64) == 64 <==> 64 <= x < 128
  {
  }

  /** Blocks that fix the first octet, the first and a range of the second, or the first three. */
  lemma BlockByFirst(ip: IpAddr, a: octet)
    requires ip.V4?
    ensures InBlock(Number(ip), a, 0, 0, 0x100_0000) <==> ip.a == a
  {
  }

  lemma BlockBySecond(ip: IpAddr, a: octet, b: octet, count: nat)
    requires ip.V4? && 1 <= count <= 256 - b
    ensures InBlock(Number(ip), a, b, 0, count * 0x1_0000) <==> ip.a == a && b <= ip.b < b + count
  {
  }

  lemma BlockByThird(ip: IpAddr, a: octet, b: octet, c: octet)
    requires ip.V4?
    ensures InBlock(Number(ip), a, b, c, 0x100) <==> ip.a == a && ip.b == b && ip.c == c
  {
  }

  lemma BlockFrom224(ip: IpAddr)
    requires ip.V4?
    ensures InBlock(Number(ip), 224, 0, 0, 0x2000_0000) <==> ip.a >= 224
  {
  }

  lemma SafeOutsideBlocks(ip: IpAddr)
    requires ip.V4?
    ensures var n := Number(ip);
      IsSafeIp(ip) <==>
      !(|| InBlock(n, 0, 0, 0, 0x100_0000) || InBlock(n, 10, 0, 0, 0x100_0000) || InBlock(n, 100, 64, 0, 0x40_0000)
        || InBlock(n, 127, 0, 0, 0x100_0000) || InBlock(n, 169, 254, 0, 0x1_0000) || InBlock(n, 172, 16, 0, 0x10_0000)
        || InBlock(n, 192, 0, 0, 0x100) || InBlock(n, 192, 0, 2, 0x100) || InBlock(n, 192, 168, 0, 0x1_0000)
        || InBlock(n, 198, 18, 0, 0x2_0000) || InBlock(n, 198, 51, 100, 0x100) || InBlock(n, 203, 0, 113, 0x100)
        || InBlock(n, 224, 0, 0, 0x2000_0000))
  {
    hide KeepHigh, InBlock, Number;
    MaskOf64(ip.b);
    BlockByFirst(ip, 0);
    BlockByFirst(ip, 10);
    BlockByFirst(ip, 127);
    BlockBySecond(ip, 100, 64, 64);
    BlockBySecond(ip, 169, 254, 1);
    BlockBySecond(ip, 172, 16, 16);
    BlockBySecond(ip, 192, 168, 1);
    BlockBySecond(ip, 198, 18, 2);
    BlockByThird(ip, 192, 0, 0);
    BlockByThird(ip, 192, 0, 2);
    BlockByThird(ip, 198, 51, 100);
    BlockByThird(ip, 203, 0, 113);
    BlockFrom224(ip);
  }

  /** The dozen tests on octets keep out exactly thirteen ranges of 32-bit numbers: this-network, private use, shared
      address space, loopback, link-local, protocol assignments, documentation, benchmarking, and everything from
      multicast on. */
  lemma SafeV4Iff(a: octet, b: octet, c: octet, d: octet)
    ensures
      var n := a * 0x100_0000 + b * 0x1_0000 + c * 0x100 + d;
      IsSafeIp(V4(a, b, c, d)) <==>
      !(|| n < 0x100_0000
        || 0x0a00_0000 <= n < 0x0b00_0000
        || 0x6440_0000 <= n < 0x6480_0000
        || 0x7f00_0000 <= n < 0x8000_0000
        || 0xa9fe_0000 <= n < 0xa9ff_0000
        || 0xac10_0000 <= n < 0xac20_0000
        || 0xc000_0000 <= n < 0xc000_0100
        || 0xc000_0200 <= n < 0xc000_0300
        || 0xc0a8_0000 <= n < 0xc0a9_0000
        || 0xc612_0000 <= n < 0xc614_0000
        || 0xc633_6400 <= n < 0xc633_6500
        || 0xcb00_7100 <= n < 0xcb00_7200
        || 0xe000_0000 <= n)
  {
    var ip: IpAddr := V4(a, b, c, d);
    SafeOutsideBlocks(ip);
    assert Number(ip) == a * 0x100_0000 + b * 0x1_0000 + c * 0x100 + d;
    hide IsSafeIp;
  }

  lemma MaskOfFirst(x: segment)
    ensures KeepHigh(x, 0x100) == 0xff00 <==> 0xff00 <= x
    ensures KeepHigh(x, 0x200) == 0xfc00 <==> 0xfc00 <= x < 0xfe00
    ensures KeepHigh(x, 0x40) == 0xfe80 <==> 0xfe80 <= x < 0xfec0
  {
  }

  /** The address as a 128-bit number. */
  function Number6(a: segment, b: segment, c: segment, d: segment, e: segment, f: segment, g: segment, h: segment): nat {
    a * 0x1_0000_0000_0000_0000_0000_0000_0000 + b * 0x1_0000_0000_0000_0000_0000_0000
    + c * 0x1_0000_0000_0000_0000_0000 + d * 0x1_0000_0000_0000_0000 + e * 0x1_0000_0000_0000
    + f * 0x1_0000_0000 + g * 0x1_0000 + h
  }

  lemma EmbeddingRange(a: segment, b: segment, c: segment, d: segment, e: segment, f: segment, g: segment, h: segment)
    ensures var n := Number6(a, b, c, d, e, f, g, h);
      EmbedsV4(V6([a, b, c, d, e, f, g, h])) <==> n < 0x1_0000_0000 || 0xffff_0000_0000 <= n < 0x1_0000_0000_0000
  {
    var s := [a, b, c, d, e, f, g, h];
    assert EmbedsV4(V6(s)) <==> s[0] == 0 && s[1] == 0 && s[2] == 0 && s[3] == 0 && s[4] == 0 && (s[5] == 0 || s[5] == 0xffff);
  }

  lemma FirstSegmentRange(a: segment, b: segment, c: segment, d: segment, e: segment, f: segment, g: segment, h: segment, lo: nat, hi: nat)
    requires lo <= hi <= 0x1_0000
    ensures lo <= a < hi <==>
      lo * 0x1_0000_0000_0000_0000_0000_0000_0000 <= Number6(a, b, c, d, e, f, g, h) < hi * 0x1_0000_0000_0000_0000_0000_0000_0000
  {
  }

  /** An IPv6 address that wraps an IPv4 one, being below 2^32 or in ::ffff:0:0/96, is as safe as that one. Any other is
      safe exactly outside ff00::/8, fc00::/7 and fe80::/10. */
  lemma SafeV6Iff(a: segment, b: segment, c: segment, d: segment, e: segment, f: segment, g: segment, h: segment)
    ensures
      var n := a * 0x1_0000_0000_0000_0000_0000_0000_0000 + b * 0x1_0000_0000_0000_0000_0000_0000
        + c * 0x1_0000_0000_0000_0000_0000 + d * 0x1_0000_0000_0000_0000 + e * 0x1_0000_0000_0000
        + f * 0x1_0000_0000 + g * 0x1_0000 + h;
      IsSafeIp(V6([a, b, c, d, e, f, g, h])) <==>
      if n < 0x1_0000_0000 || 0xffff_0000_0000 <= n < 0x1_0000_0000_0000
      then IsSafeIp(V4(g / 256, g % 256, h / 256, h % 256))
      else !(|| 0xff00_0000_0000_0000_0000_0000_0000_0000 <= n
             || 0xfc00_0000_0000_0000_0000_0000_0000_0000 <= n < 0xfe00_0000_0000_0000_0000_0000_0000_0000
             || 0xfe80_0000_0000_0000_0000_0000_0000_0000 <= n < 0xfec0_0000_0000_0000_0000_0000_0000_0000)
  {
    EmbeddingRange(a, b, c, d, e, f, g, h);
    MaskOfFirst(a);
    FirstSegmentRange(a, b, c, d, e, f, g, h, 0xff00, 0x1_0000);
    FirstSegmentRange(a, b, c, d, e, f, g, h, 0xfc00, 0xfe00);
    FirstSegmentRange(a, b, c, d, e, f, g, h, 0xfe80, 0xfec0);
    FirstSegmentRange(a, b, c, d, e, f, g, h, 0, 0x1_0000);
    assert Number6(a, b, c, d, e, f, g, h) == a * 0x1_0000_0000_0000_0000_0000_0000_0000 + b * 0x1_0000_0000_0000_0000_0000_0000
      + c * 0x1_0000_0000_0000_0000_0000 + d * 0x1_0000_0000_0000_0000 + e * 0x1_0000_0000_0000
      + f * 0x1_0000_0000 + g * 0x1_0000 + h;
    hide KeepHigh, IsSafeV4, EmbedsV4, Number6;
    var ip: IpAddr := V6([a, b, c, d, e, f, g, h]);
    if !EmbedsV4(ip) { OneIsWrapped(ip); }
  }

  lemma OneIsWrapped(ip: IpAddr)
    requires ip.V6? && !EmbedsV4(ip)
    ensures !IsLoopback(ip) && ip.segments != [0, 0, 0, 0, 0, 0, 0, 0]
  {
  }

  /** Wrapping an IPv4 address in IPv6, in either way, does not make it any safer or less safe. */
  lemma WrappingChangesNothing(a: octet, b: octet, c: octet, d: octet, marker: segment)
    requires marker == 0 || marker == 0xffff
    ensures IsSafeIp(V6([0, 0, 0, 0, 0, marker, a * 256 + b, c * 256 + d])) <==> IsSafeIp(V4(a, b, c, d))
  {
    var wrapped: IpAddr := V6([0, 0, 0, 0, 0, marker, a * 256 + b, c * 256 + d]);
    assert Embedded(wrapped) == V4(a, b, c, d);
  }

  /** Loopback, which may be allowed on request, is 127.0.0.0/8 and ::1, and never safe by itself. */
  lemma LoopbackIff(ip: IpAddr)
    ensures IsLoopback(ip) <==> if ip.V4? then ip.a == 127 else ip.segments == [0, 0, 0, 0, 0, 0, 0, 1]
    ensures IsLoopback(ip) ==> !IsSafeIp(ip)
  {
    if IsLoopback(ip) && ip.V6? { assert EmbedsV4(ip) && Embedded(ip) == V4(0, 0, 0, 1); }
  }
}
