/**
 Addresses and networks.  An address is sixteen bytes of memory in network order; a network keeps,
 next to its address, a mask whose whole words are in network order and whose last partial word is
 in host order.
 */
module Networks {
  import opened Words

  datatype Family = Unknown | IPv4 | IPv6

  type Memory = d: seq<Byte> | |d| == 16 witness [0, 0, 0, 0, 0, 0, 0, 0, 0, 0, 0, 0, 0, 0, 0, 0]

  datatype Address = Address(family: Family, data: Memory)

  const NULL_DATA: Memory := [0, 0, 0, 0, 0, 0, 0, 0, 0, 0, 0, 0, 0, 0, 0, 0]
  const NULL_ADDRESS: Address := Address(Unknown, NULL_DATA)

  function Length(family: Family): nat {
    match family
    case IPv4 => 4
    case IPv6 => 16
    case Unknown => 0
  }

  function MaxBits(family: Family): nat {
    8 * Length(family)
  }

  function AddressBits(a: Address): (bits: seq<bool>)
    ensures |bits| == 128
  {
    Bits(a.data)
  }

  /** `u64_data()[i]`, as the host loads it. */
  function RawWord(a: Address, i: nat): Word
    requires i < 2
  {
    Load(a.data, 8 * i)
  }

  predicate IsNullAddress(a: Address) {
    a.data == NULL_DATA
  }

  function V4(a: Byte, b: Byte, c: Byte, d: Byte): Address {
    Address(IPv4, [a, b, c, d, 0, 0, 0, 0, 0, 0, 0, 0, 0, 0, 0, 0])
  }

  /** Every IPv4 address the collector builds has zeros after its four bytes. */
  predicate WellFormed(a: Address) {
    a.family == IPv4 ==> forall i :: 4 <= i < 16 ==> a.data[i] == 0
  }

  /** IPv4 addresses become IPv4-mapped ones (section 2.5.5.2 of RFC 4291). */
  function ToV6(a: Address): Address {
    match a.family
    case IPv6 => a
    case IPv4 => Address(IPv6, [0, 0, 0, 0, 0, 0, 0, 0, 0, 0, 0xff, 0xff, a.data[0], a.data[1], a.data[2], a.data[3]])
    case Unknown => NULL_ADDRESS
  }

  /** Loopback: 127.0.0.0/8, ::1, and the mapped form of 127.0.0.0/8. */
  predicate IsLocal(a: Address) {
    match a.family
    case IPv4 => a.data[0] == 0x7f
    case IPv6 =>
      a.data[..8] == NULL_DATA[..8] &&
      (a.data[8..] == [0, 0, 0, 0, 0, 0, 0, 1] || a.data[8..13] == [0, 0, 0xff, 0xff, 0x7f])
    case Unknown => false
  }

  predicate IsCanonicalExternal(a: Address) {
    match a.family
    case IPv4 => a.data[..4] == [0xff, 0xff, 0xff, 0xff]
    case IPv6 => forall i :: 0 <= i < 16 ==> a.data[i] == 0xff
    case Unknown => false
  }

  // ----- networks

  type PrefixLength = b: int | 0 <= b <= 128

  datatype IPNet = IPNet(address: Address, mask: seq<Word>, bits: PrefixLength, isAddress: bool) {
    function Family(): Family { address.family }

    predicate IsNull() {
      bits == 0 && IsNullAddress(address)
    }

    /** The network prefix as bits. */
    function Prefix(): (p: seq<bool>)
      ensures |p| == bits
    {
      AddressBits(address)[..bits]
    }
  }

  function MaskWord(a: Address, bits: nat, i: nat): Word
    requires i < 2
  {
    if 64 * (i + 1) <= bits then RawWord(a, i)
    else if 64 * i < bits then And(Ntohll(RawWord(a, i)), HighMask(bits - 64 * i))
    else ZERO
  }

  /** What the constructor builds: the prefix length is cut to the width of the family. */
  function NetOf(a: Address, bits: nat, isAddress: bool): IPNet {
    var b := if bits > MaxBits(a.family) then MaxBits(a.family) else bits;
    IPNet(a, [MaskWord(a, b, 0), MaskWord(a, b, 1)], b, isAddress)
  }

  function AddressNet(a: Address): IPNet {
    NetOf(a, MaxBits(a.family), true)
  }

  const NULL_NET: IPNet := NetOf(NULL_ADDRESS, 0, false)

  /** Values only the constructor makes. */
  predicate Built(n: IPNet) {
    n == NetOf(n.address, n.bits, n.isAddress)
  }

  lemma BuiltBits(a: Address, bits: nat, isAddress: bool)
    ensures Built(NetOf(a, bits, isAddress))
    ensures NetOf(a, bits, isAddress).bits <= MaxBits(a.family)
  {
  }

  method NewIPNet(a: Address, bits: nat, isAddress: bool) returns (net: IPNet)
    ensures net == NetOf(a, bits, isAddress)
  {
    hide RawWord, And, Ntohll, HighMask;
    var b := bits;
    if b > 8 * Length(a.family) {
      b := 8 * Length(a.family);
    }
    var mask: seq<Word> := [ZERO, ZERO];
    var left, p := b, 0;
    while left >= 64
      invariant 0 <= p <= 2 && 0 <= left == b - 64 * p
      invariant mask == [if p > 0 then RawWord(a, 0) else ZERO, if p > 1 then RawWord(a, 1) else ZERO]
      decreases left
    {
      mask := mask[p := RawWord(a, p)];
      p, left := p + 1, left - 64;
    }
    if left > 0 {
      var lastMask := HighMask(left);
      mask := mask[p := And(Ntohll(RawWord(a, p)), lastMask)];
    }
    net := IPNet(a, mask, b, isAddress);
  }

  /** A network covers an address of its family when the address begins with the network's prefix. */
  predicate Covers(n: IPNet, a: Address) {
    n.address.family == a.family && n.Prefix() <= AddressBits(a)
  }

  lemma WordOfBits(a: Address, b: Address, i: nat)
    requires i < 2
    ensures RawWord(a, i) == RawWord(b, i) <==>
            AddressBits(a)[64 * i..64 * i + 64] == AddressBits(b)[64 * i..64 * i + 64]
    ensures Ntohll(RawWord(a, i)) == AddressBits(a)[64 * i..64 * i + 64]
  {
    LoadedBits(a.data, 8 * i);
    LoadedBits(b.data, 8 * i);
    NtohllInjective(RawWord(a, i), RawWord(b, i));
  }

  lemma PrefixSplit(x: seq<bool>, y: seq<bool>, m: nat, n: nat)
    requires m <= n <= |x| && n <= |y|
    ensures x[..n] == y[..n] <==> x[..m] == y[..m] && x[m..n] == y[m..n]
  {
    assert x[..n] == x[..m] + x[m..n] && y[..n] == y[..m] + y[m..n];
  }

  /** The word-by-word test, whole words in network order and the rest in host order, is `Covers`. */
  method Contains(net: IPNet, a: Address) returns (r: bool)
    requires Built(net)
    ensures r <==> Covers(net, a)
  {
    hide RawWord, And, Ntohll, HighMask, Bits;
    if a.family != net.address.family {
      return false;
    }
    ghost var x, y := AddressBits(net.address), AddressBits(a);
    assert net.Prefix() <= y <==> x[..net.bits] == y[..net.bits];
    var left, p := net.bits, 0;
    while left >= 64
      invariant 0 <= p <= 2 && 0 <= left == net.bits - 64 * p
      invariant x[..64 * p] == y[..64 * p]
      decreases left
    {
      WordOfBits(net.address, a, p);
      PrefixSplit(x, y, 64 * p, 64 * p + 64);
      if RawWord(a, p) != net.mask[p] {
        PrefixSplit(x, y, 64 * p + 64, net.bits);
        return false;
      }
      p, left := p + 1, left - 64;
    }
    if left > 0 {
      LastWord(net, a, p, left);
      PrefixSplit(x, y, 64 * p, net.bits);
      if And(Ntohll(RawWord(a, p)), HighMask(left)) != net.mask[p] {
        return false;
      }
    }
    return true;
  }

  lemma LastWord(net: IPNet, a: Address, p: nat, left: nat)
    requires Built(net) && p < 2 && 0 < left < 64 && net.bits == 64 * p + left
    ensures And(Ntohll(RawWord(a, p)), HighMask(left)) == net.mask[p]
            <==> AddressBits(net.address)[64 * p..net.bits] == AddressBits(a)[64 * p..net.bits]
  {
    hide RawWord, And, Ntohll, HighMask, Bits;
    var x, y := AddressBits(net.address), AddressBits(a);
    WordOfBits(net.address, a, p);
    WordOfBits(a, a, p);
    MaskedEqual(Ntohll(RawWord(a, p)), Ntohll(RawWord(net.address, p)), left);
    assert net.mask[p] == MaskWord(net.address, net.bits, p);
    assert x[64 * p..64 * p + 64][..left] == x[64 * p..net.bits];
    assert y[64 * p..64 * p + 64][..left] == y[64 * p..net.bits];
  }

  /** The netmask as two host-order words. */
  function NetMaskArray(bits: nat): (m: seq<Word>)
    ensures |m| == 2
  {
    if bits < 64 then [HighMask(bits), ZERO]
    else if bits == 128 then [ONES, ONES]
    else [ONES, HighMask(bits % 64)]
  }

  lemma NetMaskBit(bits: nat, d: nat)
    requires bits <= 128 && d < 128
    ensures NetMaskArray(bits)[d / 64][d % 64] <==> d < bits
  {
    MaskBits(bits, d % 64);
    MaskBits(bits % 64, d % 64);
  }

  // ----- private networks

  function PrivateV4(): seq<IPNet> {
    [NetOf(V4(10, 0, 0, 0), 8, false), NetOf(V4(100, 64, 0, 0), 10, false), NetOf(V4(169, 254, 0, 0), 16, false),
     NetOf(V4(172, 16, 0, 0), 12, false), NetOf(V4(192, 168, 0, 0), 16, false)]
  }

  function Mapped(n: IPNet): IPNet {
    NetOf(ToV6(n.address), n.bits + 96, false)
  }

  const ULA: IPNet := NetOf(Address(IPv6, [0xfd, 0, 0, 0, 0, 0, 0, 0, 0, 0, 0, 0, 0, 0, 0, 0]), 8, false)

  function PrivateV6(): seq<IPNet> {
    [ULA] + seq(|PrivateV4()|, i requires 0 <= i < |PrivateV4()| => Mapped(PrivateV4()[i]))
  }

  function PrivateNetworks(family: Family): seq<IPNet> {
    match family
    case IPv4 => PrivateV4()
    case IPv6 => PrivateV6()
    case Unknown => []
  }

  lemma PrivateNetworksAreBuilt(family: Family)
    ensures forall i :: 0 <= i < |PrivateNetworks(family)| ==> Built(PrivateNetworks(family)[i])
  {
  }

  predicate Private(a: Address) {
    exists i :: 0 <= i < |PrivateNetworks(a.family)| && Covers(PrivateNetworks(a.family)[i], a)
  }

  method IsPublic(a: Address) returns (r: bool)
    ensures r <==> !Private(a)
  {
    PrivateNetworksAreBuilt(a.family);
    hide NetOf, AddressBits, PrivateV4, PrivateV6;
    var nets := PrivateNetworks(a.family);
    for i := 0 to |nets|
      invariant forall j :: 0 <= j < i ==> !Covers(nets[j], a)
    {
      var inside := Contains(nets[i], a);
      if inside {
        return false;
      }
    }
    return true;
  }

  lemma MappedBit(a: Address, k: nat)
    requires a.family == IPv4 && k < 128
    ensures k < 96 ==> AddressBits(ToV6(a))[k] == (80 <= k)
    ensures k >= 96 ==> AddressBits(ToV6(a))[k] == AddressBits(a)[k - 96]
  {
    hide ByteBit;
    if k < 80 {
      assert ToV6(a).data[k / 8] == 0;
      ZeroByte(k % 8);
    } else if k < 96 {
      assert ToV6(a).data[k / 8] == 0xff;
      ZeroByte(k % 8);
    } else {
      assert ToV6(a).data[k / 8] == a.data[k / 8 - 12];
      assert (k - 96) / 8 == k / 8 - 12 && (k - 96) % 8 == k % 8;
    }
  }

  lemma ZeroByte(i: nat)
    requires i < 8
    ensures !ByteBit(0, i) && ByteBit(0xff, i)
  {
  }

  lemma MappedBits(a: Address, b: Address, n: nat)
    requires a.family == b.family == IPv4 && n <= 32
    ensures AddressBits(ToV6(a))[..96 + n] == AddressBits(ToV6(b))[..96 + n] <==>
            AddressBits(a)[..n] == AddressBits(b)[..n]
  {
    hide ToV6, AddressBits;
    var x, y := AddressBits(ToV6(a)), AddressBits(ToV6(b));
    forall k | 0 <= k < 128
      ensures k < 96 ==> x[k] == y[k]
      ensures k >= 96 ==> x[k] == AddressBits(a)[k - 96] && y[k] == AddressBits(b)[k - 96]
    {
      MappedBit(a, k);
      MappedBit(b, k);
    }
    PrefixSplit(x, y, 96, 96 + n);
    assert x[..96] == y[..96];
    assert x[96..96 + n] == AddressBits(a)[..n] && y[96..96 + n] == AddressBits(b)[..n];
  }

  lemma MappedCovers(n: IPNet, a: Address)
    requires n.address.family == a.family == IPv4 && n.bits <= 32
    ensures Mapped(n).bits == n.bits + 96
    ensures Covers(Mapped(n), ToV6(a)) <==> Covers(n, a)
  {
    hide AddressBits;
    MappedBits(n.address, a, n.bits);
  }

  lemma UlaIsNotMapped(a: Address)
    requires a.family == IPv4
    ensures ULA.bits == 8 && !Covers(ULA, ToV6(a))
  {
    assert AddressBits(ULA.address)[0];
    MappedBit(a, 0);
    assert ULA.Prefix()[0];
  }

  lemma PrivateTables()
    ensures |PrivateV4()| == 5 && |PrivateV6()| == 6 && PrivateV6()[0] == ULA
    ensures forall i :: 0 <= i < 5 ==> PrivateV4()[i].address.family == IPv4 && PrivateV4()[i].bits <= 32
    ensures forall i :: 0 <= i < 5 ==> PrivateV6()[i + 1] == Mapped(PrivateV4()[i])
  {
    hide Mapped;
  }

  /** An IPv4 address and its mapped form are both private or both public, and both local or neither. */
  lemma MappedAddressesAgree(a: Address)
    requires a.family == IPv4
    ensures Private(a) <==> Private(ToV6(a))
    ensures IsLocal(a) <==> IsLocal(ToV6(a))
  {
    hide PrivateV4, PrivateV6, NetOf, AddressBits, IsLocal;
    MappedLocal(a);
    PrivateTables();
    UlaIsNotMapped(a);
    var v4, v6 := PrivateV4(), PrivateV6();
    assert v4 == PrivateNetworks(a.family) && v6 == PrivateNetworks(ToV6(a).family);
    forall i | 0 <= i < 5
      ensures Covers(v6[i + 1], ToV6(a)) <==> Covers(v4[i], a)
    {
      MappedCovers(v4[i], a);
    }
    if Private(a) {
      var i :| 0 <= i < 5 && Covers(v4[i], a);
      assert Covers(PrivateNetworks(ToV6(a).family)[i + 1], ToV6(a));
    }
    if Private(ToV6(a)) {
      var i :| 0 <= i < 6 && Covers(v6[i], ToV6(a));
      assert i > 0 && Covers(v6[(i - 1) + 1], ToV6(a));
      assert Covers(PrivateNetworks(a.family)[i - 1], a);
    }
  }

  lemma MappedLocal(a: Address)
    requires a.family == IPv4
    ensures IsLocal(a) <==> IsLocal(ToV6(a))
  {
    var d := ToV6(a).data;
    assert d[..8] == NULL_DATA[..8];
    assert d[8..][2] == 0xff;
    assert d[8..13] == [0, 0, 0xff, 0xff, a.data[0]];
  }

  // ----- the private ranges by bytes

  lemma SameByteBits(a: Byte, b: Byte)
    ensures a == b <==> forall i :: 0 <= i < 8 ==> ByteBit(a, i) == ByteBit(b, i)
  {
    if forall i :: 0 <= i < 8 ==> ByteBit(a, i) == ByteBit(b, i) {
      assert ByteBit(a, 0) == ByteBit(b, 0) && ByteBit(a, 1) == ByteBit(b, 1);
      assert ByteBit(a, 2) == ByteBit(b, 2) && ByteBit(a, 3) == ByteBit(b, 3);
      assert ByteBit(a, 4) == ByteBit(b, 4) && ByteBit(a, 5) == ByteBit(b, 5);
      assert ByteBit(a, 6) == ByteBit(b, 6) && ByteBit(a, 7) == ByteBit(b, 7);
    }
  }

  /** Two addresses agree on whole bytes and on the first bits of the next one. */
  lemma PrefixByBytes(a: Address, b: Address, k: nat, r: nat)
    requires k < 16 && r < 8
    ensures AddressBits(a)[..8 * k + r] == AddressBits(b)[..8 * k + r] <==>
            && a.data[..k] == b.data[..k]
            && forall i :: 0 <= i < r ==> ByteBit(a.data[k], i) == ByteBit(b.data[k], i)
  {
    var x, y := AddressBits(a), AddressBits(b);
    hide ByteBit;
    if x[..8 * k + r] == y[..8 * k + r] {
      forall j | 0 <= j < k ensures a.data[j] == b.data[j] {
        ByteOfPrefix(a, b, j, 8 * k + r);
      }
      forall i | 0 <= i < r ensures ByteBit(a.data[k], i) == ByteBit(b.data[k], i) {
        assert x[..8 * k + r][8 * k + i] == y[..8 * k + r][8 * k + i];
      }
    } else if a.data[..k] == b.data[..k] && forall i :: 0 <= i < r ==> ByteBit(a.data[k], i) == ByteBit(b.data[k], i) {
      forall d | 0 <= d < 8 * k + r ensures x[d] == y[d] {
        assert d < 8 * k ==> a.data[..k][d / 8] == b.data[..k][d / 8];
      }
    }
  }

  lemma ByteOfPrefix(a: Address, b: Address, j: nat, n: nat)
    requires j < 16 && 8 * j + 8 <= n <= 128 && AddressBits(a)[..n] == AddressBits(b)[..n]
    ensures a.data[j] == b.data[j]
  {
    SameByteBits(a.data[j], b.data[j]);
    hide ByteBit;
    forall i | 0 <= i < 8 ensures ByteBit(a.data[j], i) == ByteBit(b.data[j], i) {
      assert AddressBits(a)[..n][8 * j + i] == AddressBits(b)[..n][8 * j + i];
    }
  }

  /** 10.0.0.0/8, 100.64.0.0/10, 169.254.0.0/16, 172.16.0.0/12 and 192.168.0.0/16 by their first two bytes. */
  predicate PrivateRange(b0: Byte, b1: Byte) {
    || b0 == 10
    || (b0 == 100 && 64 <= b1 <= 127)
    || (b0 == 169 && b1 == 254)
    || (b0 == 172 && 16 <= b1 <= 31)
    || (b0 == 192 && b1 == 168)
  }

  lemma CoversByBytes(x: Address, bits: nat, a: Address, k: nat, r: nat)
    requires x.family == a.family && k < 16 && r < 8 && bits == 8 * k + r <= MaxBits(x.family)
    ensures Covers(NetOf(x, bits, false), a) <==>
            && x.data[..k] == a.data[..k]
            && forall i :: 0 <= i < r ==> ByteBit(x.data[k], i) == ByteBit(a.data[k], i)
  {
    hide AddressBits, ByteBit, MaskWord;
    PrefixByBytes(x, a, k, r);
    var n := NetOf(x, bits, false);
    assert n.Prefix() <= AddressBits(a) <==> AddressBits(x)[..bits] == AddressBits(a)[..bits];
  }

  lemma HighBits(b: Byte)
    ensures ByteBit(b, 0) == ByteBit(64, 0) && ByteBit(b, 1) == ByteBit(64, 1) <==> 64 <= b <= 127
    ensures (&& ByteBit(b, 0) == ByteBit(16, 0) && ByteBit(b, 1) == ByteBit(16, 1)
             && ByteBit(b, 2) == ByteBit(16, 2) && ByteBit(b, 3) == ByteBit(16, 3)) <==> 16 <= b <= 31
  {
  }

  lemma CoversOneByte(x: Address, a: Address)
    requires x.family == a.family != Unknown
    ensures Covers(NetOf(x, 8, false), a) <==> a.data[0] == x.data[0]
  {
    hide ByteBit, NetOf, AddressBits;
    CoversByBytes(x, 8, a, 1, 0);
    assert x.data[..1] == [x.data[0]] && a.data[..1] == [a.data[0]];
  }

  lemma CoversTwoBytes(x: Address, a: Address)
    requires x.family == a.family != Unknown
    ensures Covers(NetOf(x, 16, false), a) <==> a.data[0] == x.data[0] && a.data[1] == x.data[1]
  {
    hide ByteBit, NetOf, AddressBits;
    CoversByBytes(x, 16, a, 2, 0);
    assert x.data[..2] == [x.data[0], x.data[1]] && a.data[..2] == [a.data[0], a.data[1]];
  }

  lemma CoversSharedSpace(a: Address)
    requires a.family == IPv4
    ensures Covers(NetOf(V4(100, 64, 0, 0), 10, false), a) <==> a.data[0] == 100 && 64 <= a.data[1] <= 127
  {
    hide ByteBit, NetOf, AddressBits;
    var x := V4(100, 64, 0, 0);
    CoversByBytes(x, 10, a, 1, 2);
    assert x.data[..1] == [100] && a.data[..1] == [a.data[0]];
    HighBits(a.data[1]);
  }

  lemma CoversTwentyBitBlock(a: Address)
    requires a.family == IPv4
    ensures Covers(NetOf(V4(172, 16, 0, 0), 12, false), a) <==> a.data[0] == 172 && 16 <= a.data[1] <= 31
  {
    hide ByteBit, NetOf, AddressBits;
    var x := V4(172, 16, 0, 0);
    CoversByBytes(x, 12, a, 1, 4);
    assert x.data[..1] == [172] && a.data[..1] == [a.data[0]];
    HighBits(a.data[1]);
  }

  /** Which IPv4 addresses are private. */
  lemma PrivateV4ByBytes(a: Address)
    requires a.family == IPv4
    ensures Private(a) <==> PrivateRange(a.data[0], a.data[1])
  {
    hide NetOf, Covers, AddressBits, ByteBit;
    var nets := PrivateNetworks(a.family);
    CoversOneByte(V4(10, 0, 0, 0), a);
    CoversSharedSpace(a);
    CoversTwoBytes(V4(169, 254, 0, 0), a);
    CoversTwentyBitBlock(a);
    CoversTwoBytes(V4(192, 168, 0, 0), a);
    assert Private(a) <==> Covers(nets[0], a) || Covers(nets[1], a) || Covers(nets[2], a) || Covers(nets[3], a)
                           || Covers(nets[4], a);
  }

  const MAPPED: seq<Byte> := [0, 0, 0, 0, 0, 0, 0, 0, 0, 0, 0xff, 0xff]

  /** And which IPv6 addresses: fd00::/8 and the mapped forms of the private IPv4 ones. */
  lemma PrivateV6ByBytes(a: Address)
    requires a.family == IPv6
    ensures Private(a) <==>
            a.data[0] == 0xfd || (a.data[..12] == MAPPED && PrivateRange(a.data[12], a.data[13]))
  {
    hide NetOf, Covers, AddressBits, ByteBit, PrivateV4, PrivateV6, PrivateRange, ToV6;
    UlaNet();
    CoversOneByte(ULA.address, a);
    PrivateTables();
    if a.data[..12] == MAPPED {
      var b := V4(a.data[12], a.data[13], a.data[14], a.data[15]);
      MappedBack(a);
      MappedAddressesAgree(b);
      PrivateV4ByBytes(b);
      assert !(a.data[0] == 0xfd) by { assert a.data[..12][0] == 0; }
    } else {
      var nets := PrivateNetworks(a.family);
      assert nets == PrivateV6();
      forall i | 0 < i < 6 ensures !Covers(nets[i], a) {
        assert PrivateV6()[i - 1 + 1] == Mapped(PrivateV4()[i - 1]);
        MappedBeginsMapped(PrivateV4()[i - 1], a);
      }
      assert Private(a) <==> Covers(nets[0], a);
    }
  }

  lemma UlaNet()
    ensures ULA == NetOf(ULA.address, 8, false) && ULA.address.data[0] == 0xfd && ULA.address.family == IPv6
  {
  }

  lemma MappedBack(a: Address)
    requires a.family == IPv6 && a.data[..12] == MAPPED
    ensures ToV6(V4(a.data[12], a.data[13], a.data[14], a.data[15])) == a
  {
    assert a.data == a.data[..12] + a.data[12..];
    assert a.data[12..] == [a.data[12], a.data[13], a.data[14], a.data[15]];
  }

  lemma MappedBeginsMapped(n: IPNet, a: Address)
    requires n.address.family == IPv4 && n.bits <= 32 && a.family == IPv6
    ensures Covers(Mapped(n), a) ==> a.data[..12] == MAPPED
  {
    hide AddressBits, ByteBit;
    var x := ToV6(n.address);
    assert x.data[..12] == MAPPED;
    PrefixByBytes(x, a, 12, 0);
    PrefixSplit(AddressBits(x), AddressBits(a), 96, 96 + n.bits);
  }

  /** Loopback addresses of IPv4 are those of 127.0.0.0/8. */
  lemma LocalIsLoopback(a: Address)
    requires a.family == IPv4
    ensures IsLocal(a) <==> Covers(NetOf(V4(127, 0, 0, 0), 8, false), a)
  {
    CoversOneByte(V4(127, 0, 0, 0), a);
  }
}
