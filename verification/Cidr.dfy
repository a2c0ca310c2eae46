/** The address range of an ONVIF scan: IPv4 prefixes as in section 3.1 of RFC 4632. Addresses are byte
    sequences in network order; `BE.Value` is their numeric value. */
module Cidr {
  import opened MachineInts
  import BE = BigEndian

  type Address = seq<byte>

  const MAX_SCAN_HOSTS := 1024

  /** A CIDR string after parsing. An IPv4 address written in IPv6 form has a 128-bit mask. */
  datatype Parsed = Malformed | V6 | MappedV4 | V4(ip: Address, ones: nat)

  datatype Hosts = Ok(hosts: seq<Address>) | InvalidCIDR | OnlyIPv4 | TooLarge(count: nat)

  // ---- bits --------------------------------------------------------------------------------

  function Pow2(n: nat): (p: nat)
    ensures p > 0
  {
    if n == 0 then 1 else 2 * Pow2(n - 1)
  }

  /** Bitwise and of the n low bits. */
  function And(a: nat, b: nat, n: nat): nat {
    if n == 0 then 0 else 2 * And(a / 2, b / 2, n - 1) + (if a % 2 == 1 && b % 2 == 1 then 1 else 0)
  }

  /** Bitwise or of the n low bits. */
  function Or(a: nat, b: nat, n: nat): nat {
    if n == 0 then 0 else 2 * Or(a / 2, b / 2, n - 1) + (if a % 2 == 1 || b % 2 == 1 then 1 else 0)
  }

  lemma {:induction false} AndIsSmall(a: nat, b: nat, n: nat)
    ensures And(a, b, n) < Pow2(n) && Or(a, b, n) < Pow2(n)
  {
    if n > 0 {
      AndIsSmall(a / 2, b / 2, n - 1);
    }
  }

  lemma Bits8()
    ensures Pow2(8) == 256
  {
    assert Pow2(4) == 16;
    assert Pow2(6) == 64;
  }

  /** x without its z low bits. */
  function Floor(x: nat, z: nat): nat {
    if z == 0 then x else 2 * Floor(x / 2, z - 1)
  }

  /** The z low bits of x are zero. */
  predicate Aligned(x: nat, z: nat) {
    z == 0 || (x % 2 == 0 && Aligned(x / 2, z - 1))
  }

  /** x without its z low bits, shifted down. */
  function High(x: nat, z: nat): nat {
    if z == 0 then x else High(x / 2, z - 1)
  }

  lemma Doubled(a: int, b: int)
    ensures 2 * (a * b) == a * (2 * b)
  {
  }

  lemma {:induction false} FloorIsHigh(x: nat, z: nat)
    ensures Floor(x, z) == High(x, z) * Pow2(z)
  {
    if z > 0 {
      FloorIsHigh(x / 2, z - 1);
      Doubled(High(x / 2, z - 1), Pow2(z - 1));
    }
  }

  lemma {:induction false} FloorIsBelow(x: nat, z: nat)
    ensures Floor(x, z) <= x < Floor(x, z) + Pow2(z)
  {
    if z > 0 {
      FloorIsBelow(x / 2, z - 1);
    }
  }

  lemma {:induction false} FloorIsAligned(x: nat, z: nat)
    ensures Aligned(Floor(x, z), z)
  {
    if z > 0 {
      FloorIsAligned(x / 2, z - 1);
      var half := Floor(x / 2, z - 1);
      assert Floor(x, z) == 2 * half && 2 * half / 2 == half;
    }
  }

  /** Floor is the greatest multiple of 2^z that is at most x. */
  lemma FloorIsAMultiple(x: nat, z: nat)
    ensures Floor(x, z) == High(x, z) * Pow2(z)
    ensures Floor(x, z) <= x < Floor(x, z) + Pow2(z)
    ensures Aligned(Floor(x, z), z)
  {
    hide Floor, High, Aligned, Pow2;
    FloorIsHigh(x, z);
    FloorIsBelow(x, z);
    FloorIsAligned(x, z);
  }

  lemma {:induction false} AddAligned(w: nat, y: nat, z: nat)
    requires Aligned(w, z)
    ensures Floor(w + y, z) == w + Floor(y, z)
    ensures Aligned(w + y, z) <==> Aligned(y, z)
  {
    if z > 0 {
      AddAligned(w / 2, y / 2, z - 1);
    }
  }

  lemma {:induction false} Monotone(z: nat, n: nat)
    requires z <= n
    ensures Pow2(z) <= Pow2(n)
  {
    if z < n {
      Monotone(z, n - 1);
    }
  }

  /** And with a mask of n - z ones over z zeros clears the z low bits. */
  lemma {:induction false} AndWithMask(x: nat, z: nat, n: nat)
    requires z <= n && x < Pow2(n)
    ensures Pow2(z) <= Pow2(n) && And(x, Pow2(n) - Pow2(z), n) == Floor(x, z)
  {
    Monotone(z, n);
    if n > 0 {
      var mask := Pow2(n) - Pow2(z);
      if z == 0 {
        assert mask / 2 == Pow2(n - 1) - Pow2(0) && mask % 2 == 1;
        AndWithMask(x / 2, 0, n - 1);
      } else {
        Monotone(z - 1, n - 1);
        assert mask / 2 == Pow2(n - 1) - Pow2(z - 1) && mask % 2 == 0;
        AndWithMask(x / 2, z - 1, n - 1);
      }
    }
  }

  /** Or with z ones fills the z low bits. */
  lemma {:induction false} OrWithOnes(x: nat, z: nat, n: nat)
    requires z <= n && x < Pow2(n) && Aligned(x, z)
    ensures Or(x, Pow2(z) - 1, n) == x + Pow2(z) - 1
  {
    if n > 0 {
      var ones := Pow2(z) - 1;
      if z == 0 {
        assert ones / 2 == 0 && ones % 2 == 0;
        OrWithOnes(x / 2, 0, n - 1);
      } else {
        assert ones / 2 == Pow2(z - 1) - 1 && ones % 2 == 1;
        OrWithOnes(x / 2, z - 1, n - 1);
      }
    }
  }

  // ---- masks -------------------------------------------------------------------------------

  /** Zero bits in byte i of a mask with this many ones. */
  function Zeros(i: nat, ones: nat): (z: nat)
    ensures z <= 8
  {
    if ones >= 8 * i + 8 then 0 else if ones <= 8 * i then 8 else 8 * i + 8 - ones
  }

  function MaskByte(i: nat, ones: nat): byte {
    Bits8();
    Monotone(Zeros(i, ones), 8);
    256 - Pow2(Zeros(i, ones))
  }

  /** The first address of the prefix: each byte and the mask. */
  function Network(ip: Address, ones: nat): (r: Address)
    ensures |r| == |ip|
  {
    if ip == [] then []
    else
      var n := |ip| - 1;
      Bits8();
      AndIsSmall(ip[n], MaskByte(n, ones), 8);
      Network(ip[..n], ones) + [And(ip[n], MaskByte(n, ones), 8)]
  }

  /** The last: each byte or the inverted mask. */
  function Broadcast(net: Address, ones: nat): (r: Address)
    ensures |r| == |net|
  {
    if net == [] then []
    else
      var n := |net| - 1;
      Bits8();
      AndIsSmall(net[n], 255 - MaskByte(n, ones), 8);
      Broadcast(net[..n], ones) + [Or(net[n], 255 - MaskByte(n, ones), 8)]
  }

  lemma TwoBits(x: nat, z: nat)
    requires z >= 2
    ensures Floor(x, z) == 4 * Floor(x / 4, z - 2)
    ensures Aligned(x, z) <==> x % 4 == 0 && Aligned(x / 4, z - 2)
    ensures Pow2(z) == 4 * Pow2(z - 2)
  {
    assert Floor(x / 2, z - 1) == 2 * Floor(x / 4, z - 2);
    assert Aligned(x / 2, z - 1) <==> x / 2 % 2 == 0 && Aligned(x / 4, z - 2);
  }

  lemma FourBits(x: nat, z: nat)
    requires z >= 4
    ensures Floor(x, z) == 16 * Floor(x / 16, z - 4)
    ensures Aligned(x, z) <==> x % 16 == 0 && Aligned(x / 16, z - 4)
    ensures Pow2(z) == 16 * Pow2(z - 4)
  {
    hide Floor, Aligned, Pow2;
    TwoBits(x, z);
    TwoBits(x / 4, z - 2);
  }

  lemma Nibbles(v: nat, b: byte)
    ensures (v * 256 + b) / 16 == v * 16 + b / 16 && (v * 16 + b / 16) / 16 == v
    ensures (v * 256 + b) % 16 == 0 && (v * 16 + b / 16) % 16 == 0 <==> b == 0
  {
  }

  /** Clearing more than the low byte. */
  lemma AcrossByte(v: nat, b: byte, z: nat)
    requires z >= 8
    ensures Floor(v * 256 + b, z) == Floor(v, z - 8) * 256
    ensures Aligned(v * 256 + b, z) <==> b == 0 && Aligned(v, z - 8)
    ensures Pow2(z) == 256 * Pow2(z - 8)
  {
    hide Floor, Aligned, Pow2;
    FourBits(v * 256 + b, z);
    Nibbles(v, b);
    FourBits(v * 16 + b / 16, z - 4);
  }

  lemma {:induction false} AlignedLess(x: nat, z: nat, n: nat)
    requires z <= n && Aligned(x, n)
    ensures Aligned(x, z)
  {
    if z > 0 {
      AlignedLess(x / 2, z - 1, n - 1);
    }
  }

  /** Clearing no more than the low byte. */
  lemma InByte(v: nat, b: byte, z: nat)
    requires z <= 8
    ensures Floor(v * 256 + b, z) == v * 256 + Floor(b, z)
    ensures Aligned(v * 256 + b, z) <==> Aligned(b, z)
  {
    AcrossByte(v, 0, 8);
    AlignedLess(v * 256, z, 8);
    AddAligned(v * 256, b, z);
  }

  lemma MaskedByte(b: byte, i: nat, ones: nat)
    ensures And(b, MaskByte(i, ones), 8) == Floor(b, Zeros(i, ones))
    ensures Aligned(b, Zeros(i, ones)) ==> Or(b, 255 - MaskByte(i, ones), 8) == b + Pow2(Zeros(i, ones)) - 1
  {
    Bits8();
    AndWithMask(b, Zeros(i, ones), 8);
    if Aligned(b, Zeros(i, ones)) {
      OrWithOnes(b, Zeros(i, ones), 8);
    }
  }

  lemma SmallFloor(b: byte)
    ensures Floor(b, 8) == 0
  {
    AcrossByte(0, b, 8);
    FloorIsAMultiple(0, 0);
  }

  lemma LastByteOfNetwork(ip: Address, ones: nat)
    requires ip != []
    ensures var n := |ip| - 1;
      BE.Value(Network(ip, ones)) == BE.Value(Network(ip[..n], ones)) * 256 + And(ip[n], MaskByte(n, ones), 8)
  {
    var n := |ip| - 1;
    assert Network(ip, ones)[..n] == Network(ip[..n], ones);
  }

  lemma NetworkStep(ip: Address, ones: nat)
    requires ip != [] && ones <= 8 * |ip|
    requires var n := |ip| - 1;
      if ones < 8 * n then BE.Value(Network(ip[..n], ones)) == Floor(BE.Value(ip[..n]), 8 * n - ones)
      else Network(ip[..n], ones) == ip[..n]
    ensures BE.Value(Network(ip, ones)) == Floor(BE.Value(ip), 8 * |ip| - ones)
  {
    hide Network, Floor, And, MaskByte, Aligned, Pow2;
    var n := |ip| - 1;
    var z := 8 * |ip| - ones;
    var v, b := BE.Value(ip[..n]), ip[n];
    MaskedByte(b, n, ones);
    LastByteOfNetwork(ip, ones);
    if z <= 8 {
      InByte(v, b, z);
    } else {
      AcrossByte(v, b, z);
      SmallFloor(b);
    }
  }

  lemma {:induction false} FullyKept(ip: Address, ones: nat)
    requires ones >= 8 * |ip|
    ensures Network(ip, ones) == ip && Broadcast(ip, ones) == ip
  {
    if ip != [] {
      var n := |ip| - 1;
      FullyKept(ip[..n], ones);
      Bits8();
      AndWithMask(ip[n], 0, 8);
      OrWithOnes(ip[n], 0, 8);
      assert ip == ip[..n] + [ip[n]];
    }
  }

  /** Masking clears the host bits of the address: it floors its value to a multiple of the size. */
  lemma {:induction false} NetworkValue(ip: Address, ones: nat)
    requires ones <= 8 * |ip|
    ensures BE.Value(Network(ip, ones)) == Floor(BE.Value(ip), 8 * |ip| - ones)
  {
    if ip != [] {
      var n := |ip| - 1;
      if ones < 8 * n {
        NetworkValue(ip[..n], ones);
      } else {
        FullyKept(ip[..n], ones);
      }
      NetworkStep(ip, ones);
    }
  }

  lemma LastByteOfBroadcast(net: Address, ones: nat)
    requires net != []
    ensures var n := |net| - 1;
      BE.Value(Broadcast(net, ones))
      == BE.Value(Broadcast(net[..n], ones)) * 256 + Or(net[n], 255 - MaskByte(n, ones), 8)
  {
    var n := |net| - 1;
    assert Broadcast(net, ones)[..n] == Broadcast(net[..n], ones);
  }

  lemma {:induction false} ZeroAligned(z: nat)
    ensures Aligned(0, z)
  {
    if z > 0 {
      ZeroAligned(z - 1);
    }
  }

  lemma BroadcastStep(net: Address, ones: nat)
    requires net != [] && ones <= 8 * |net|
    requires Aligned(BE.Value(net), 8 * |net| - ones)
    requires var n := |net| - 1;
      if ones < 8 * n then BE.Value(Broadcast(net[..n], ones)) == BE.Value(net[..n]) + Pow2(8 * n - ones) - 1
      else Broadcast(net[..n], ones) == net[..n]
    ensures BE.Value(Broadcast(net, ones)) == BE.Value(net) + Pow2(8 * |net| - ones) - 1
  {
    hide Broadcast, Floor, Or, MaskByte, Aligned, Pow2;
    var n := |net| - 1;
    var z := 8 * |net| - ones;
    var v, b := BE.Value(net[..n]), net[n];
    Bits8();
    MaskedByte(b, n, ones);
    LastByteOfBroadcast(net, ones);
    if z <= 8 {
      InByte(v, b, z);
    } else {
      AcrossByte(v, b, z);
      ZeroAligned(8);
    }
  }

  /** Filling the host bits of a network address adds its size less one. */
  lemma {:induction false} BroadcastValue(net: Address, ones: nat)
    requires ones <= 8 * |net|
    requires Aligned(BE.Value(net), 8 * |net| - ones)
    ensures BE.Value(Broadcast(net, ones)) == BE.Value(net) + Pow2(8 * |net| - ones) - 1
  {
    if net != [] {
      var n := |net| - 1;
      if ones < 8 * n {
        AcrossByte(BE.Value(net[..n]), net[n], 8 * |net| - ones);
        BroadcastValue(net[..n], ones);
      } else {
        FullyKept(net[..n], ones);
      }
      BroadcastStep(net, ones);
    }
  }

  // ---- counting ----------------------------------------------------------------------------

  /** The next address, wrapping at the end. */
  function Next(ip: Address): (r: Address)
    ensures |r| == |ip|
  {
    if ip == [] then []
    else
      var n := |ip| - 1;
      if ip[n] == 255 then Next(ip[..n]) + [0] else ip[..n] + [ip[n] + 1]
  }

  /** The byte-wise carry adds one to the value. */
  lemma {:induction false} NextAddsOne(ip: Address)
    ensures BE.Value(Next(ip)) == if BE.Value(ip) + 1 == BE.Range(|ip|) then 0 else BE.Value(ip) + 1
  {
    if ip != [] {
      var n := |ip| - 1;
      BE.ValueInRange(ip[..n]);
      if ip[n] == 255 {
        NextAddsOne(ip[..n]);
        assert Next(ip)[..n] == Next(ip[..n]);
      } else {
        assert Next(ip)[..n] == ip[..n];
      }
    }
  }

  /** The carry stops at the last byte that is not 255. */
  lemma {:induction false} CarriedOut(ip: Address, i: nat)
    requires i < |ip| && ip[i] != 255 && forall k :: i < k < |ip| ==> ip[k] == 255
    ensures Next(ip) == ip[..i] + [ip[i] + 1] + seq(|ip| - i - 1, _ => 0)
    decreases |ip|
  {
    var n := |ip| - 1;
    if i < n {
      CarriedOut(ip[..n], i);
      assert ip[..n][..i] == ip[..i];
    }
  }

  lemma {:induction false} AllCarried(ip: Address)
    requires forall k :: 0 <= k < |ip| ==> ip[k] == 255
    ensures Next(ip) == seq(|ip|, _ => 0)
  {
    if ip != [] {
      AllCarried(ip[..|ip| - 1]);
    }
  }

  lemma Carried(was: Address, now: Address, i: nat)
    requires i < |was| == |now| && was[i] != 255 && now[i] == was[i] + 1
    requires forall k :: 0 <= k < i ==> now[k] == was[k]
    requires forall k :: i < k < |was| ==> now[k] == 0 && was[k] == 255
    ensures now == Next(was)
  {
    hide Next;
    CarriedOut(was, i);
    assert now == was[..i] + [was[i] + 1] + seq(|was| - i - 1, _ => 0);
  }

  /** Adds one in place, carrying from the last byte. */
  method IncIP(ip: array<byte>)
    modifies ip
    ensures ip[..] == Next(old(ip[..]))
    ensures BE.Value(ip[..]) ==
      if BE.Value(old(ip[..])) + 1 == BE.Range(ip.Length) then 0 else BE.Value(old(ip[..])) + 1
  {
    hide BE.Value, BE.Range, Next;
    ghost var was := ip[..];
    NextAddsOne(was);
    var i := ip.Length - 1;
    while i >= 0
      invariant -1 <= i < ip.Length
      invariant forall k :: 0 <= k <= i ==> ip[k] == was[k]
      invariant forall k :: i < k < ip.Length ==> ip[k] == 0 && was[k] == 255
    {
      ip[i] := if ip[i] == 255 then 0 else ip[i] + 1;
      if ip[i] != 0 {
        Carried(was, ip[..], i);
        return;
      }
      i := i - 1;
    }
    AllCarried(was);
    assert ip[..] == seq(ip.Length, _ => 0);
  }

  // ---- the scan range ----------------------------------------------------------------------

  /** The addresses are first, first + 1, ... in order. */
  ghost predicate Consecutive(hosts: seq<Address>, first: nat, count: nat) {
    && |hosts| == count
    && forall i :: 0 <= i < count ==> |hosts[i]| == 4 && BE.Value(hosts[i]) == first + i
  }

  lemma Ends(ip: Address, ones: nat)
    requires |ip| == 4 && ones <= 32
    ensures var net, first, size := Network(ip, ones), Floor(BE.Value(ip), 32 - ones), Pow2(32 - ones);
      BE.Value(net) == first && BE.Value(Broadcast(net, ones)) == first + size - 1 < BE.Range(4)
  {
    hide Floor, Pow2, BE.Value, BE.Range, Network, Broadcast;
    NetworkValue(ip, ones);
    FloorIsAMultiple(BE.Value(ip), 32 - ones);
    BroadcastValue(Network(ip, ones), ones);
    BE.ValueInRange(Broadcast(Network(ip, ones), ones));
  }

  lemma NotYet(a: Address, b: Address)
    requires |a| == |b| && a != b
    ensures BE.Value(a) != BE.Value(b)
  {
    if BE.Value(a) == BE.Value(b) {
      BE.SameValueSameBytes(a, b);
    }
  }

  /** Every address from the network address to the broadcast address. */
  method Walk(ip: Address, ones: nat) returns (hosts: seq<Address>)
    requires |ip| == 4 && ones <= 32
    ensures Consecutive(hosts, Floor(BE.Value(ip), 32 - ones), Pow2(32 - ones))
  {
    hide Floor, Pow2, BE.Value, BE.Range, Network, Broadcast, Next;
    Ends(ip, ones);
    ghost var size := Pow2(32 - ones);
    ghost var first := Floor(BE.Value(ip), 32 - ones);
    var net, end := Network(ip, ones), Broadcast(Network(ip, ones), ones);
    var cur := new byte[4](i requires 0 <= i < 4 => net[i]);
    assert cur[..] == net;
    hosts := [];
    while true
      invariant Consecutive(hosts, first, |hosts|)
      invariant BE.Value(cur[..]) == first + |hosts| && |hosts| < size
      decreases size - |hosts|
    {
      hosts := hosts + [cur[..]];
      if cur[..] == end {
        break;
      }
      NotYet(cur[..], end);
      IncIP(cur);
    }
  }

  /** Sizes against the limit: a /22 is within it, a /21 and wider are not. */
  lemma LimitAt(ones: nat)
    requires ones <= 30
    ensures Pow2(32 - ones) >= 4
    ensures Pow2(32 - ones) - 2 > MAX_SCAN_HOSTS <==> ones <= 21
  {
    Bits8();
    Monotone(2, 32 - ones);
    if ones <= 21 {
      Monotone(11, 32 - ones);
    } else {
      Monotone(32 - ones, 10);
    }
  }

  /** The hosts to scan: for /22 to /30 every address strictly between network and broadcast address,
      both addresses of a /31, the address itself for /32, and an error for anything wider. */
  method CIDRHosts(cidr: Parsed) returns (r: Hosts)
    requires cidr.V4? ==> |cidr.ip| == 4 && cidr.ones <= 32
    ensures r.InvalidCIDR? <==> cidr.Malformed?
    ensures r.OnlyIPv4? <==> cidr.V6? || cidr.MappedV4?
    ensures r.TooLarge? <==> cidr.V4? && cidr.ones <= 21
    ensures cidr.V4? ==>
      var net, size := Floor(BE.Value(cidr.ip), 32 - cidr.ones), Pow2(32 - cidr.ones);
      && (cidr.ones == 32 ==> r == Ok([cidr.ip]))
      && (cidr.ones == 31 ==> r.Ok? && Consecutive(r.hosts, net, 2))
      && (22 <= cidr.ones <= 30 ==> r.Ok? && Consecutive(r.hosts, net + 1, size - 2))
      && (cidr.ones <= 21 ==> r == TooLarge(size - 2))
  {
    match cidr
    case Malformed => r := InvalidCIDR;
    case V6 => r := OnlyIPv4;
    case MappedV4 => r := OnlyIPv4;
    case V4(ip, ones) =>
      if 32 - ones < 1 {
        return Ok([ip]);
      }
      if ones <= 30 {
        LimitAt(ones);
      } else {
        assert Pow2(1) == 2;
      }
      var hosts := Walk(ip, ones);
      hide Floor, Pow2, BE.Value;
      if 32 - ones >= 2 {
        hosts := hosts[1..|hosts| - 1];
      }
      if |hosts| > MAX_SCAN_HOSTS {
        return TooLarge(|hosts|);
      }
      r := Ok(hosts);
  }
}
