/**
 Networks on the wire: the address bytes in network order followed by one byte for the prefix length.
 */
module WireFormat {
  import opened Networks
  import opened Words

  // ----- writing

  /** The network field of a reported endpoint; empty for prefix length zero. */
  function NetworkField(n: IPNet): seq<Byte> {
    if n.bits > 0 then n.address.data[..Length(n.Family())] + [n.bits as bv8] else []
  }

  function EncodeAll(nets: seq<IPNet>): seq<Byte> {
    if nets == [] then [] else EncodeAll(nets[..|nets| - 1]) + NetworkField(nets[|nets| - 1])
  }

  // ----- reading

  /** A signed character read as an unsigned 64-bit length: from 128 on it becomes huge. */
  function PrefixLengthOf(b: Byte): nat {
    var n := b as int;
    if n < 128 then n else 0x1_0000_0000_0000_0000 + n - 256
  }

  function Zeros(n: nat): seq<Byte> {
    seq(n, _ => 0)
  }

  function DecodeOne(tuple: seq<Byte>, family: Family): IPNet
    requires |tuple| == Length(family) + 1
  {
    var len := Length(family);
    NetOf(Address(family, tuple[..len] + Zeros(16 - len)), PrefixLengthOf(tuple[len]), false)
  }

  /** Tuple after tuple; a rest too short for one is ignored. */
  function DecodeAll(networks: seq<Byte>, family: Family): seq<IPNet> {
    var size := Length(family) + 1;
    if |networks| < size then [] else [DecodeOne(networks[..size], family)] + DecodeAll(networks[size..], family)
  }

  method ReadNetworks(networks: seq<Byte>, family: Family) returns (nets: seq<IPNet>)
    ensures nets == DecodeAll(networks, family)
  {
    hide NetOf, PrefixLengthOf, Zeros, Length, DecodeAll;
    var size := Length(family) + 1;
    var count := |networks| / size;
    nets := [];
    ghost var from := 0;
    for i := 0 to count
      invariant from == size * i && 0 <= from <= |networks|
      invariant nets + DecodeAll(networks[from..], family) == DecodeAll(networks, family)
    {
      TupleInRange(family, i, |networks|);
      var at := size * i;
      var tuple := networks[at..at + size];
      var net := ReadTuple(tuple, family);
      FirstTuple(networks[from..], family);
      assert networks[from..][..size] == tuple && networks[from..][size..] == networks[from + size..];
      nets := nets + [net];
      from := from + size;
    }
    NothingLeft(family, count, |networks|);
    TooShort(networks[from..], family);
  }

  /** One tuple: the address bytes are copied over zeros, the last byte is the prefix length. */
  method ReadTuple(tuple: seq<Byte>, family: Family) returns (net: IPNet)
    requires |tuple| == Length(family) + 1
    ensures net == DecodeOne(tuple, family)
  {
    var len := Length(family);
    var ip := tuple[..len] + Zeros(16 - len);
    net := NewIPNet(Address(family, ip), PrefixLengthOf(tuple[len]), false);
  }

  lemma FirstTuple(s: seq<Byte>, family: Family)
    requires |s| >= Length(family) + 1
    ensures var size := Length(family) + 1;
            DecodeAll(s, family) == [DecodeOne(s[..size], family)] + DecodeAll(s[size..], family)
  {
    hide DecodeOne;
  }

  lemma TooShort(s: seq<Byte>, family: Family)
    requires |s| < Length(family) + 1
    ensures DecodeAll(s, family) == []
  {
  }

  lemma TupleInRange(family: Family, i: nat, n: nat)
    requires i < n / (Length(family) + 1)
    ensures var size := Length(family) + 1; size * i + size <= n && size * (i + 1) == size * i + size
  {
    assert Length(family) == 0 || Length(family) == 4 || Length(family) == 16;
  }

  lemma NothingLeft(family: Family, count: nat, n: nat)
    requires count == n / (Length(family) + 1)
    ensures var size := Length(family) + 1; size * count <= n < size * count + size
  {
    assert Length(family) == 0 || Length(family) == 4 || Length(family) == 16;
  }

  /** A tuple is the bytes of the address in network order, then the prefix length. */
  lemma TupleOfV4(a: Byte, b: Byte, c: Byte, d: Byte, bits: nat)
    requires bits <= 32
    ensures DecodeOne([a, b, c, d, bits as bv8], IPv4) == NetOf(V4(a, b, c, d), bits, false)
  {
    hide NetOf, PrefixLengthOf;
    PrefixByte(bits);
    var tuple := [a, b, c, d, bits as bv8];
    assert tuple[..4] + Zeros(12) == V4(a, b, c, d).data;
  }

  // ----- the round trip

  lemma OneUp(b: Byte)
    requires b != 255
    ensures (b + 1) as int == b as int + 1
  {
  }

  /** Every number below 256 is the number of a byte. */
  lemma {:induction false} ByteOf(n: nat) returns (b: Byte)
    requires n < 256
    ensures b as int == n
  {
    if n == 0 {
      b := 0;
    } else {
      b := ByteOf(n - 1);
      OneUp(b);
      b := b + 1;
    }
  }

  lemma NumberKeepsByte(b: Byte)
    ensures (b as int) as bv8 == b
  {
  }

  lemma ByteKeepsNumber(n: nat)
    requires n < 256
    ensures (n as bv8) as int == n
  {
    var b := ByteOf(n);
    NumberKeepsByte(b);
  }

  lemma PrefixByte(bits: nat)
    requires bits <= 128
    ensures bits < 128 ==> PrefixLengthOf(bits as bv8) == bits
    ensures bits == 128 ==> PrefixLengthOf(bits as bv8) > 128
  {
    ByteKeepsNumber(bits);
  }

  /** Networks of one family as the collector holds them, with a prefix to send. */
  predicate Sendable(n: IPNet, family: Family) {
    n.Family() == family && Built(n) && WellFormed(n.address) && n.bits >= 1
  }

  lemma OneRoundTrip(n: IPNet, family: Family)
    requires Sendable(n, family)
    ensures |NetworkField(n)| == Length(family) + 1
    ensures DecodeOne(NetworkField(n), family) == NetOf(n.address, n.bits, false)
  {
    BuiltBits(n.address, n.bits, n.isAddress);
    hide NetOf, PrefixLengthOf, Zeros, WellFormed, NetworkField;
    PrefixByte(n.bits);
    PaddedAddress(n.address);
    Clamped(n.address, n.bits, PrefixLengthOf(n.bits as bv8));
    FieldParts(n);
  }

  lemma FieldParts(n: IPNet)
    requires n.bits > 0
    ensures var len := Length(n.Family());
            && |NetworkField(n)| == len + 1
            && NetworkField(n)[..len] == n.address.data[..len]
            && NetworkField(n)[len] == n.bits as bv8
  {
  }

  /** Lengths past the width of the family mean the full width. */
  lemma Clamped(a: Address, bits: nat, sent: nat)
    requires sent == bits || (sent > 128 && bits == 128 == MaxBits(a.family))
    ensures NetOf(a, sent, false) == NetOf(a, bits, false)
  {
    hide MaskWord;
  }

  lemma PaddedAddress(a: Address)
    requires WellFormed(a) && a.family != Unknown
    ensures a.data[..Length(a.family)] + Zeros(16 - Length(a.family)) == a.data
  {
  }

  lemma OneTupleLess(n: nat, family: Family)
    requires n > 0 && n % (Length(family) + 1) == 0
    ensures Length(family) + 1 <= n && (n - Length(family) - 1) % (Length(family) + 1) == 0
  {
    assert Length(family) == 0 || Length(family) == 4 || Length(family) == 16;
  }

  lemma {:induction false} DecodeOfConcat(s: seq<Byte>, tuple: seq<Byte>, family: Family)
    requires |tuple| == Length(family) + 1 && |s| % (Length(family) + 1) == 0
    ensures DecodeAll(s + tuple, family) == DecodeAll(s, family) + [DecodeOne(tuple, family)]
    decreases |s|
  {
    hide DecodeOne, DecodeAll, Length;
    var size := Length(family) + 1;
    FirstTuple(s + tuple, family);
    if s == [] {
      assert (s + tuple)[..size] == tuple && (s + tuple)[size..] == [];
      TooShort([], family);
    } else {
      OneTupleLess(|s|, family);
      DecodeOfConcat(s[size..], tuple, family);
      FirstTuple(s, family);
      assert (s + tuple)[..size] == s[..size] && (s + tuple)[size..] == s[size..] + tuple;
    }
  }

  /** The networks as a reader builds them anew. */
  function Rebuilt(nets: seq<IPNet>): seq<IPNet> {
    seq(|nets|, i requires 0 <= i < |nets| => NetOf(nets[i].address, nets[i].bits, false))
  }

  lemma RebuiltStep(nets: seq<IPNet>)
    requires nets != []
    ensures var k := |nets| - 1;
            Rebuilt(nets) == Rebuilt(nets[..k]) + [NetOf(nets[k].address, nets[k].bits, false)]
  {
    hide NetOf;
  }

  /** Every list of networks of one family is read back as written, /128 included. */
  lemma {:induction false} NetworksRoundTrip(nets: seq<IPNet>, family: Family)
    requires forall n :: n in nets ==> Sendable(n, family)
    ensures |EncodeAll(nets)| % (Length(family) + 1) == 0
    ensures DecodeAll(EncodeAll(nets), family) == Rebuilt(nets)
  {
    if nets == [] {
      TooShort([], family);
    } else {
      hide DecodeOne, DecodeAll, Sendable, NetOf, NetworkField, Rebuilt, Length;
      var k := |nets| - 1;
      NetworksRoundTrip(nets[..k], family);
      OneRoundTrip(nets[k], family);
      DecodeOfConcat(EncodeAll(nets[..k]), NetworkField(nets[k]), family);
      OneMoreTuple(|EncodeAll(nets[..k])|, family);
      RebuiltStep(nets);
    }
  }

  lemma OneMoreTuple(n: nat, family: Family)
    requires n % (Length(family) + 1) == 0
    ensures (n + Length(family) + 1) % (Length(family) + 1) == 0
  {
    assert Length(family) == 0 || Length(family) == 4 || Length(family) == 16;
  }
}
