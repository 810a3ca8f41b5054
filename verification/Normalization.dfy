/**
 How raw connections become the keys that are reported, and which remembered keys a change of the
 external-IPs setting closes.
 */
module Normalization {
  import opened Words
  import opened Networks
  import opened Options
  import opened PrefixMatch

  datatype L4Proto = UnknownProto | Tcp | Udp | Icmp

  datatype Endpoint = Endpoint(network: IPNet, port: nat)

  datatype Connection = Connection(
    container: string, local: Endpoint, remote: Endpoint, proto: L4Proto, isServer: bool)
  {
    function RemoteAddress(): Address { remote.network.address }
  }

  /** In which directions external addresses are reported one by one. */
  datatype ExternalIPs = ExternalIPs(ingress: bool, egress: bool)

  datatype Tables = Tables(
    nonAggregated: Store,
    known: Store,
    knownPublic: set<Address>,
    privateKnown: map<Family, bool>)

  const CANONICAL_V4: Address := V4(255, 255, 255, 255)
  const CANONICAL_V6: Address :=
    Address(IPv6, [255, 255, 255, 255, 255, 255, 255, 255, 255, 255, 255, 255, 255, 255, 255, 255])

  // ----- addresses

  /** Private addresses, and those asked for explicitly, are kept. */
  predicate Keeps(t: Tables, a: Address) {
    Private(a) || !FindIn(t.nonAggregated, AddressNet(a)).IsNull()
  }

  function RestOfInternet(family: Family): IPNet {
    match family
    case IPv4 => NetOf(CANONICAL_V4, 0, true)
    case IPv6 => NetOf(CANONICAL_V6, 0, true)
    case Unknown => NULL_NET
  }

  function NormalizeAddress(t: Tables, a: Address, externalIPs: bool): IPNet {
    if IsNullAddress(a) then NULL_NET
    else if Keeps(t, a) && a.family in t.privateKnown && !t.privateKnown[a.family] then NetOf(a, 0, true)
    else
      var network := FindIn(t.known, AddressNet(a));
      if Keeps(t, a) || a in t.knownPublic then NetOf(a, network.bits, true)
      else if !network.IsNull() then network
      else if externalIPs then NetOf(a, MaxBits(a.family), false)
      else RestOfInternet(a.family)
  }

  /** The test a change of the setting applies to the remote address of a remembered key. */
  predicate ShouldClose(t: Tables, a: Address, enabling: bool) {
    if enabling then IsCanonicalExternal(a)
    else !IsCanonicalExternal(a) && IsCanonicalExternal(NormalizeAddress(t, a, false).address)
  }

  /** Tables as the collector builds them, with no network at the canonical address. */
  ghost predicate Sound(t: Tables) {
    && Keyed(t.known)
    && forall p :: p in t.known ==> Built(t.known[p]) && !IsCanonicalExternal(t.known[p].address)
  }

  /** Neither kept nor known one by one: only a network or the rest of the internet can stand for it. */
  predicate Aggregated(t: Tables, a: Address) {
    !IsNullAddress(a) && !Private(a) && FindIn(t.nonAggregated, AddressNet(a)).IsNull() && a !in t.knownPublic
  }

  /** A longer network of the other family covers this network's own address. */
  predicate SelfHidden(t: Tables, n: IPNet) {
    match Longest(t.known, AddressNet(n.address).Prefix())
    case Some(best) => best.Family() != n.Family()
    case None => false
  }

  lemma OwnAddress(t: Tables, n: IPNet)
    requires Sound(t) && n.Prefix() in t.known && t.known[n.Prefix()] == n
    ensures FindIn(t.known, AddressNet(n.address)).IsNull() <==> SelfHidden(t, n)
  {
    hide NetOf, AddressNet, Longest, IPNet.Prefix;
    AddressNetBits(n.address);
    NullNetIsEmpty();
    CoversOwnAddress(n);
    KnownFamily(n);
    LongestIsLongest(t.known, AddressNet(n.address).Prefix());
  }

  lemma KnownFamily(n: IPNet)
    requires Built(n) && n.bits > 0
    ensures n.bits <= MaxBits(n.Family()) && n.Family() != Unknown
  {
    BuiltBits(n.address, n.bits, n.isAddress);
    hide NetOf;
  }

  /** What a lookup in the known networks can return. */
  lemma KnownLookup(t: Tables, a: Address)
    requires Sound(t)
    ensures var n := FindIn(t.known, AddressNet(a));
            !n.IsNull() ==> n.Prefix() in t.known && t.known[n.Prefix()] == n && n.bits > 0
    ensures !IsCanonicalExternal(FindIn(t.known, AddressNet(a)).address)
  {
    NullNetIsEmpty();
    hide NetOf, AddressBits, AddressNet;
    LongestIsLongest(t.known, AddressNet(a).Prefix());
  }

  lemma RestIsCanonical(family: Family)
    ensures IsCanonicalExternal(RestOfInternet(family).address) <==> family != Unknown
    ensures family == Unknown ==> RestOfInternet(family).address == NULL_ADDRESS
  {
  }

  /** The address of a key. */
  lemma AddressOfKey(t: Tables, a: Address, externalIPs: bool)
    ensures NormalizeAddress(t, a, externalIPs).address ==
            var n := FindIn(t.known, AddressNet(a));
            if IsNullAddress(a) then NULL_ADDRESS
            else if !Aggregated(t, a) then a
            else if !n.IsNull() then n.address
            else if externalIPs then a
            else RestOfInternet(a.family).address
  {
    hide FindIn, AddressNet, RestOfInternet, IsNullAddress, MaskWord, Private;
  }

  lemma NullIsNotCanonical()
    ensures IsNullAddress(NULL_ADDRESS) && !IsCanonicalExternal(NULL_ADDRESS)
  {
  }

  /** When an address ends up as "the rest of the internet". */
  lemma CollapsesExactly(t: Tables, a: Address, externalIPs: bool)
    requires Sound(t) && !IsCanonicalExternal(a)
    ensures IsCanonicalExternal(NormalizeAddress(t, a, externalIPs).address) <==>
            !externalIPs && a.family != Unknown && Aggregated(t, a) && FindIn(t.known, AddressNet(a)).IsNull()
  {
    hide FindIn, Private, IsCanonicalExternal, AddressNet, RestOfInternet, IsNullAddress, NormalizeAddress, NetOf;
    AddressOfKey(t, a, externalIPs);
    KnownLookup(t, a);
    RestIsCanonical(a.family);
    NullIsNotCanonical();
  }

  /** The length of the longest known network of the address's family that contains it, zero if there is none. */
  function KnownBits(t: Tables, a: Address): nat {
    FindIn(t.known, AddressNet(a)).bits
  }

  lemma KnownBitsIsLongest(t: Tables, a: Address)
    requires Sound(t)
    ensures KnownBits(t, a) <= MaxBits(a.family)
    ensures KnownBits(t, a) > 0 ==>
            exists p :: p in t.known && |p| == KnownBits(t, a) && Covers(t.known[p], a)
                        && forall q :: q in t.known && q <= AddressNet(a).Prefix() ==> |q| <= |p|
  {
    KnownLookup(t, a);
    FoundCovers(t, a);
    AddressNetBits(a);
    NullNetIsEmpty();
    hide NetOf, AddressNet, AddressBits;
    LongestIsLongest(t.known, AddressNet(a).Prefix());
    var n := FindIn(t.known, AddressNet(a));
    if n.bits > 0 {
      assert n.Prefix() in t.known && |n.Prefix()| == n.bits;
    }
  }

  /**
   The key of an address, from the address and the tables.  A private address, one inside a network
   that is not to be aggregated, and one known by itself keep their own address under every setting;
   any other goes by its known network, and without one by itself or as the rest of the internet.
   */
  lemma KeyOfAddress(t: Tables, a: Address, externalIPs: bool)
    requires Sound(t) && !IsNullAddress(a)
    ensures var key, spared := NormalizeAddress(t, a, externalIPs), !FindIn(t.nonAggregated, AddressNet(a)).IsNull();
            var skipped := (Private(a) || spared) && a.family in t.privateKnown && !t.privateKnown[a.family];
            && (Private(a) || spared || a in t.knownPublic ==>
                key.address == a && key.isAddress && key.bits == if skipped then 0 else KnownBits(t, a))
            && (Aggregated(t, a) && KnownBits(t, a) > 0 ==> key == FindIn(t.known, AddressNet(a)))
            && (Aggregated(t, a) && KnownBits(t, a) == 0 && externalIPs ==>
                key.address == a && !key.isAddress && key.bits == MaxBits(a.family))
            && (Aggregated(t, a) && KnownBits(t, a) == 0 && !externalIPs ==>
                && key.bits == 0
                && (a.family == IPv4 ==> key.address == CANONICAL_V4 && key.isAddress)
                && (a.family == IPv6 ==> key.address == CANONICAL_V6 && key.isAddress)
                && (a.family == Unknown ==> key.IsNull()))
  {
    KnownBitsIsLongest(t, a);
    KnownNull(t, a);
    NullNetIsEmpty();
    hide FindIn, AddressNet, MaskWord, IsNullAddress, Private;
  }

  lemma KnownNull(t: Tables, a: Address)
    requires Sound(t)
    ensures FindIn(t.known, AddressNet(a)).IsNull() <==> KnownBits(t, a) == 0
  {
    NullNetIsEmpty();
    hide NetOf, AddressBits, AddressNet;
    LongestIsLongest(t.known, AddressNet(a).Prefix());
  }

  ghost predicate InsideAny(nets: seq<IPNet>, a: Address) {
    exists n :: n in nets && n.bits > 0 && Covers(n, a)
  }

  /** Networks the collector builds, none of the other family beginning like `a`. */
  ghost predicate Clear(nets: seq<IPNet>, a: Address) {
    forall n :: n in nets ==> Built(n) && (RawCovers(n, AddressNet(a).Prefix()) ==> n.Family() == a.family)
  }

  /** An address becomes the rest of the internet, from the lists the tables were built from. */
  lemma CollapsesFromLists(spared: seq<IPNet>, known: seq<IPNet>, t: Tables, a: Address, externalIPs: bool)
    requires t.nonAggregated == StoreOf(spared) && t.known == StoreOf(known) && Sound(t)
    requires a.family != Unknown && !IsCanonicalExternal(a) && Clear(spared, a) && Clear(known, a)
    ensures IsCanonicalExternal(NormalizeAddress(t, a, externalIPs).address) <==>
            && !externalIPs && !IsNullAddress(a) && !Private(a) && a !in t.knownPublic
            && !InsideAny(spared, a) && !InsideAny(known, a)
  {
    hide FindIn, Private, IsCanonicalExternal, AddressNet, IsNullAddress, NormalizeAddress, NetOf, Sound, StoreOf,
         Covers;
    CollapsesExactly(t, a, externalIPs);
    FoundIffInside(spared, a);
    FoundIffInside(known, a);
  }

  lemma FoundIffInside(nets: seq<IPNet>, a: Address)
    requires a.family != Unknown && Clear(nets, a)
    ensures FindIn(StoreOf(nets), AddressNet(a)).IsNull() <==> !InsideAny(nets, a)
  {
    hide AddressNet, NetOf, Covers, Longest;
    AddressHasNetwork(nets, a);
    NullNetIsEmpty();
    FoundIsNotNull(StoreOf(nets), AddressNet(a));
  }

  lemma FoundIsNotNull(s: Store, q: IPNet)
    requires Keyed(s)
    ensures FindIn(s, q).IsNull() <==> FindIn(s, q) == NULL_NET
  {
    NullNetIsEmpty();
    hide AddressBits, NetOf;
    LongestIsLongest(s, q.Prefix());
  }

  /**
   A key built under a setting is closed by the change to that setting if and only if external IPs
   were switched off, the key is a known network, and that network's own address, itself subject to
   aggregation, is hidden by a longer network of the other family.
   */
  lemma FreshKeyClosesExactly(t: Tables, a: Address, externalIPs: bool)
    requires Sound(t) && !IsCanonicalExternal(a)
    ensures var key, n := NormalizeAddress(t, a, externalIPs), FindIn(t.known, AddressNet(a));
            ShouldClose(t, key.address, externalIPs) <==>
            !externalIPs && Aggregated(t, a) && !n.IsNull() && Aggregated(t, n.address) && SelfHidden(t, n)
  {
    hide FindIn, Private, IsCanonicalExternal, AddressNet, RestOfInternet, NormalizeAddress, NetOf, SelfHidden,
         IsNullAddress;
    var n := FindIn(t.known, AddressNet(a));
    AddressOfKey(t, a, externalIPs);
    CollapsesExactly(t, a, externalIPs);
    CollapsesExactly(t, a, false);
    KnownLookup(t, a);
    NullIsNotCanonical();
    RestIsCanonical(a.family);
    CollapsesExactly(t, NULL_ADDRESS, false);
    if !n.IsNull() {
      OwnAddress(t, n);
      KnownFamily(n);
      CollapsesExactly(t, n.address, false);
    }
  }

  /** Without cross-family overlap among the known networks, no freshly built key is closed. */
  lemma FreshKeysStayOpen(t: Tables, a: Address, externalIPs: bool)
    requires Sound(t) && !IsCanonicalExternal(a) && NoOverlap(t.known, t.known)
    ensures !ShouldClose(t, NormalizeAddress(t, a, externalIPs).address, externalIPs)
  {
    FreshKeyClosesExactly(t, a, externalIPs);
    KnownLookup(t, a);
    var n := FindIn(t.known, AddressNet(a));
    if !n.IsNull() {
      NeverSelfHidden(t, n);
    }
  }

  /**
   A remembered key built under the old setting is closed by the change exactly when the new setting
   gives its address another key, or, on switching external IPs off, when it is a known network whose
   own address is hidden.
   */
  lemma OldKeyClosesExactly(t: Tables, a: Address, enabling: bool)
    requires Sound(t) && !IsCanonicalExternal(a)
    ensures var before, after := NormalizeAddress(t, a, !enabling), NormalizeAddress(t, a, enabling);
            var n := FindIn(t.known, AddressNet(a));
            ShouldClose(t, before.address, enabling) <==>
            || (a.family != Unknown && before != after)
            || (!enabling && Aggregated(t, a) && !n.IsNull() && Aggregated(t, n.address) && SelfHidden(t, n))
  {
    hide FindIn, IsCanonicalExternal, AddressNet, RestOfInternet, NormalizeAddress, NetOf, SelfHidden, Private,
         IsNullAddress;
    SettingDecides(t, a);
    CollapsesExactly(t, a, false);
    CollapsesExactly(t, a, true);
    FreshKeyClosesExactly(t, a, false);
    AddressOfKey(t, a, true);
    AddressOfKey(t, a, false);
    assert NormalizeAddress(t, a, true) != NormalizeAddress(t, a, false) ==> NormalizeAddress(t, a, true).address == a;
  }

  /** The setting matters to an address exactly when nothing else decides its key. */
  lemma SettingDecides(t: Tables, a: Address)
    requires Sound(t) && !IsCanonicalExternal(a)
    ensures a.family != Unknown ==>
            (NormalizeAddress(t, a, true) != NormalizeAddress(t, a, false) <==>
             Aggregated(t, a) && FindIn(t.known, AddressNet(a)).IsNull())
    ensures NormalizeAddress(t, a, true) == NormalizeAddress(t, a, false)
            || (Aggregated(t, a) && FindIn(t.known, AddressNet(a)).IsNull())
  {
    hide FindIn, IsCanonicalExternal, AddressNet, MaskWord, Private, IsNullAddress, RestOfInternet;
    RestIsCanonical(a.family);
  }

  /** Without cross-family overlap, exactly the keys that the setting changes are closed. */
  lemma ChangedKeysAreClosed(t: Tables, a: Address, enabling: bool)
    requires Sound(t) && NoOverlap(t.known, t.known) && !IsCanonicalExternal(a) && a.family != Unknown
    ensures ShouldClose(t, NormalizeAddress(t, a, !enabling).address, enabling) <==>
            NormalizeAddress(t, a, !enabling) != NormalizeAddress(t, a, enabling)
  {
    hide FindIn, IsCanonicalExternal, AddressNet, NormalizeAddress, NetOf, SelfHidden, Private, IsNullAddress,
         ShouldClose, NoOverlap;
    OldKeyClosesExactly(t, a, enabling);
    KnownLookup(t, a);
    var n := FindIn(t.known, AddressNet(a));
    if !n.IsNull() {
      NeverSelfHidden(t, n);
    }
  }

  lemma Comparable(p: Path, q: Path, r: Path)
    requires p <= r && q <= r
    ensures p <= q || q <= p
  {
  }

  /** A network's prefix begins its own address. */
  lemma CoversOwnAddress(n: IPNet)
    requires Built(n)
    ensures n.Prefix() <= AddressNet(n.address).Prefix()
  {
    BuiltBits(n.address, n.bits, n.isAddress);
    AddressNetBits(n.address);
    hide NetOf, AddressBits, AddressNet;
  }

  lemma NeverSelfHidden(t: Tables, n: IPNet)
    requires Sound(t) && n.Prefix() in t.known && t.known[n.Prefix()] == n && NoOverlap(t.known, t.known)
    ensures !SelfHidden(t, n)
  {
    hide NetOf, AddressNet, Longest, IPNet.Prefix;
    var q := AddressNet(n.address).Prefix();
    CoversOwnAddress(n);
    LongestIsLongest(t.known, q);
    if Longest(t.known, q).Some? {
      Comparable(n.Prefix(), Longest(t.known, q).value.Prefix(), q);
    }
  }

  // ----- the shortcut for private addresses

  function PrivateStore(): Store {
    StoreOf(PrivateV4() + PrivateV6())
  }

  /** Some known network of the family holds a private one, or lies inside one; as the two walks answer it. */
  ghost predicate HasPrivate(known: Store, family: Family) {
    WalkHits(known, PrivateStore(), family) || WalkHits(PrivateStore(), known, family)
  }

  lemma PrivateFirstBytes()
    ensures forall n :: n in PrivateV4() ==>
              n.bits >= 8 && n.Family() == IPv4 && n.address.data[0] in {10, 100, 169, 172, 192}
    ensures forall n :: n in PrivateV6() ==>
              n.bits >= 8 && n.Family() == IPv6 && n.address.data[0] in {0, 0xfd}
  {
    hide MaskWord;
  }

  lemma PrivateApart(m: IPNet, n: IPNet)
    requires m in PrivateV4() && n in PrivateV6()
    ensures !(m.Prefix() <= n.Prefix()) && !(n.Prefix() <= m.Prefix())
  {
    hide AddressBits, PrivateV4, PrivateV6;
    PrivateFirstBytes();
    if m.Prefix() <= n.Prefix() || n.Prefix() <= m.Prefix() {
      assert m.Prefix()[..8] == n.Prefix()[..8];
      ByteOfPrefix(m.address, n.address, 0, 8);
    }
  }

  lemma PrivateStoreByFamily(p: Path)
    requires p in PrivateStore()
    ensures var n := PrivateStore()[p];
            n.Prefix() == p && if n.Family() == IPv4 then n in PrivateV4() else n in PrivateV6()
  {
    hide StoreOf, PrivateV4, PrivateV6, AddressBits;
    PrivateFirstBytes();
    StoredPaths(PrivateV4() + PrivateV6(), p);
  }

  lemma PrivateStoreIsClear()
    ensures NoOverlap(PrivateStore(), PrivateStore())
  {
    hide PrivateStore, PrivateV4, PrivateV6, IPNet.Prefix;
    PrivateFirstBytes();
    var s := PrivateStore();
    forall p, q | p in s && q in s && (p <= q || q <= p) ensures s[p].Family() == s[q].Family() {
      PrivateStoreByFamily(p);
      PrivateStoreByFamily(q);
      if s[p].Family() == IPv4 && s[q].Family() != IPv4 {
        PrivateApart(s[p], s[q]);
      } else if s[q].Family() == IPv4 && s[p].Family() != IPv4 {
        PrivateApart(s[q], s[p]);
      }
    }
  }

  /** A private address lies in a network of the private store of its own family. */
  lemma PrivateInStore(a: Address)
    requires Private(a)
    ensures exists p :: p in PrivateStore() && PrivateStore()[p].Family() == a.family && p <= AddressNet(a).Prefix()
  {
    hide StoreOf, PrivateV4, PrivateV6, AddressBits, NetOf, MaskWord;
    var nets := PrivateNetworks(a.family);
    var i :| 0 <= i < |nets| && Covers(nets[i], a);
    var n := nets[i];
    PrivateNetworksAreBuilt(a.family);
    BuiltBits(n.address, n.bits, n.isAddress);
    AddressNetBits(a);
    PrivateFirstBytes();
    assert n in PrivateV4() + PrivateV6();
    StoredPaths(PrivateV4() + PrivateV6(), n.Prefix());
    PrivateStoreByFamily(n.Prefix());
    var m := PrivateStore()[n.Prefix()];
    if m.Family() != n.Family() {
      if n.Family() == IPv4 {
        PrivateApart(n, m);
      } else {
        PrivateApart(m, n);
      }
    }
    assert n.Prefix() <= AddressNet(a).Prefix();
  }

  /** If the walks find no private network among the known ones, no private address has a known network. */
  lemma NoPrivateNetworkKnown(t: Tables, a: Address)
    requires Sound(t) && NoOverlap(t.known, t.known) && Private(a) && !HasPrivate(t.known, a.family)
    ensures KnownBits(t, a) == 0
  {
    hide StoreOf, PrivateStore, PrivateV4, PrivateV6, AddressBits, NetOf, WalkHits, Private, AddressNet, Longest;
    if KnownBits(t, a) > 0 {
      var n, private := FindIn(t.known, AddressNet(a)), PrivateStore();
      KnownLookup(t, a);
      FoundAbove(t, a);
      NullNetIsEmpty();
      PrivateInStore(a);
      var m :| m in private && private[m].Family() == a.family && m <= AddressNet(a).Prefix();
      Comparable(n.Prefix(), m, AddressNet(a).Prefix());
      PrivateStoreIsClear();
      PrivateStoreIsKeyed();
      if n.Prefix() <= m {
        assert AnySubset(t.known, private, a.family);
        NothingIsHidden(t.known, private, a.family);
        WalkAnswers(t.known, private, a.family);
      } else {
        assert AnySubset(private, t.known, a.family);
        NothingIsHidden(private, t.known, a.family);
        WalkAnswers(private, t.known, a.family);
      }
    }
  }

  lemma PrivateStoreIsKeyed()
    ensures Keyed(PrivateStore())
  {
    hide StoreOf;
  }

  lemma FoundAbove(t: Tables, a: Address)
    requires Sound(t) && KnownBits(t, a) > 0
    ensures var n := FindIn(t.known, AddressNet(a));
            n.Family() == a.family && n.Prefix() <= AddressNet(a).Prefix() && !n.IsNull()
  {
    NullNetIsEmpty();
    AddressNetBits(a);
    hide NetOf, AddressBits, AddressNet;
    LongestIsLongest(t.known, AddressNet(a).Prefix());
  }

  /**
   Skipping the lookup changes the key of an address exactly when the address is kept, its family is
   marked as having no private network, and yet it has a known one.
   */
  lemma ShortcutMatters(t: Tables, a: Address, externalIPs: bool)
    requires Sound(t) && !IsNullAddress(a)
    ensures NormalizeAddress(t, a, externalIPs) != NormalizeAddress(t.(privateKnown := map[]), a, externalIPs) <==>
            && (Private(a) || !FindIn(t.nonAggregated, AddressNet(a)).IsNull())
            && a.family in t.privateKnown && !t.privateKnown[a.family] && KnownBits(t, a) > 0
  {
    KnownBitsIsLongest(t, a);
    hide FindIn, AddressNet, MaskWord, IsNullAddress, Private, RestOfInternet;
  }

  /** With the marks the walks compute, the shortcut never changes the key of a private address. */
  lemma ShortcutIsSound(t: Tables, a: Address, externalIPs: bool)
    requires Sound(t) && NoOverlap(t.known, t.known) && Private(a) && !IsNullAddress(a)
    requires a.family in t.privateKnown ==> (t.privateKnown[a.family] <==> HasPrivate(t.known, a.family))
    ensures NormalizeAddress(t, a, externalIPs) == NormalizeAddress(t.(privateKnown := map[]), a, externalIPs)
  {
    hide NormalizeAddress, AddressNet, Private, IsNullAddress, HasPrivate, NoOverlap, Sound, KnownBits;
    ShortcutMatters(t, a, externalIPs);
    if a.family in t.privateKnown && !t.privateKnown[a.family] {
      NoPrivateNetworkKnown(t, a);
    }
  }

  // ----- connections

  /** Confidence that a port is ephemeral. */
  function EphemeralPort(port: nat): nat {
    if port >= 49152 then 4
    else if port >= 32768 then 3
    else if 1025 <= port <= 5000 then 2
    else if port == 1024 then 1
    else 0
  }

  /** The role seen on the connection, except that UDP goes by the ports. */
  predicate ServerRole(conn: Connection) {
    if conn.proto == Udp then EphemeralPort(conn.remote.port) > EphemeralPort(conn.local.port) else conn.isServer
  }

  function NormalizeConnection(t: Tables, config: ExternalIPs, conn: Connection): Connection {
    if ServerRole(conn) then
      Connection(conn.container,
                 Endpoint(AddressNet(NULL_ADDRESS), conn.local.port),
                 Endpoint(NormalizeAddress(t, conn.RemoteAddress(), config.ingress), 0),
                 conn.proto, true)
    else
      Connection(conn.container,
                 Endpoint(NULL_NET, 0),
                 Endpoint(NormalizeAddress(t, conn.RemoteAddress(), config.egress), conn.remote.port),
                 conn.proto, false)
  }

  /** A reported network with a prefix contains the address it stands for. */
  lemma KeyContainsAddress(t: Tables, a: Address, externalIPs: bool)
    requires Sound(t)
    ensures var key := NormalizeAddress(t, a, externalIPs); key.bits > 0 ==> Covers(key, a)
  {
    hide AddressBits, MaskWord, Keeps, FindIn, AddressNet, IsNullAddress;
    var n := FindIn(t.known, AddressNet(a));
    FoundCovers(t, a);
    RestHasNoPrefix(a.family);
    hide RestOfInternet;
  }

  lemma RestHasNoPrefix(family: Family)
    ensures RestOfInternet(family).bits == 0 && NULL_NET.bits == 0
  {
  }

  lemma FoundCovers(t: Tables, a: Address)
    requires Sound(t)
    ensures var n := FindIn(t.known, AddressNet(a)); n.bits > 0 ==> Covers(n, a)
  {
    AddressNetBits(a);
    NullNetIsEmpty();
    hide NetOf, AddressNet, AddressBits;
    LongestIsLongest(t.known, AddressNet(a).Prefix());
  }

  /**
   Which connections are reported as one: same container, protocol and role, the same remote after
   normalisation under the setting of that role, and the same service port, which is the local one of
   a server and the remote one of a client.
   */
  lemma ReportedAsOne(t: Tables, config: ExternalIPs, c: Connection, d: Connection)
    ensures NormalizeConnection(t, config, c) == NormalizeConnection(t, config, d) <==>
            && c.container == d.container && c.proto == d.proto && ServerRole(c) == ServerRole(d)
            && (if ServerRole(c) then c.local.port == d.local.port else c.remote.port == d.remote.port)
            && var externalIPs := if ServerRole(c) then config.ingress else config.egress;
               NormalizeAddress(t, c.RemoteAddress(), externalIPs) ==
               NormalizeAddress(t, d.RemoteAddress(), externalIPs)
  {
    hide NormalizeAddress, AddressNet;
  }

  /** Closed by the first pass, over outgoing connections. */
  predicate ClosedOutgoing(t: Tables, prev: ExternalIPs, config: ExternalIPs, conn: Connection) {
    config.egress != prev.egress && !conn.isServer && ShouldClose(t, conn.RemoteAddress(), config.egress)
  }

  /** Closed by the second pass, over incoming connections. */
  predicate ClosedIncoming(t: Tables, prev: ExternalIPs, config: ExternalIPs, conn: Connection) {
    config.ingress != prev.ingress && conn.isServer && ShouldClose(t, conn.RemoteAddress(), config.ingress)
  }

  predicate Closes(t: Tables, prev: ExternalIPs, config: ExternalIPs, conn: Connection) {
    ClosedOutgoing(t, prev, config, conn) || ClosedIncoming(t, prev, config, conn)
  }

  /** The hypothesis the sensor's view needs: no key of a freshly normalised snapshot meets the closing test. */
  lemma FreshConnectionsStayOpen(t: Tables, prev: ExternalIPs, config: ExternalIPs, conn: Connection)
    requires Sound(t) && NoOverlap(t.known, t.known) && !IsCanonicalExternal(conn.RemoteAddress())
    ensures !Closes(t, prev, config, NormalizeConnection(t, config, conn))
  {
    FreshKeysStayOpen(t, conn.RemoteAddress(), config.ingress);
    FreshKeysStayOpen(t, conn.RemoteAddress(), config.egress);
    hide NormalizeAddress, ShouldClose;
  }

  /** A remembered connection is closed by a change of setting exactly when the change gives it another key. */
  lemma ChangedConnectionsAreClosed(t: Tables, prev: ExternalIPs, config: ExternalIPs, conn: Connection)
    requires Sound(t) && NoOverlap(t.known, t.known)
    requires !IsCanonicalExternal(conn.RemoteAddress()) && conn.RemoteAddress().family != Unknown
    ensures Closes(t, prev, config, NormalizeConnection(t, prev, conn)) <==>
            NormalizeConnection(t, prev, conn) != NormalizeConnection(t, config, conn)
  {
    hide NormalizeAddress, ShouldClose, AddressNet, IsCanonicalExternal, Sound, NoOverlap;
    ChangedKeysAreClosed(t, conn.RemoteAddress(), config.ingress);
    ChangedKeysAreClosed(t, conn.RemoteAddress(), config.egress);
  }

  /** What a key shows of the ports: a server's own, a client's remote one, and no other. */
  lemma KeyShowsService(t: Tables, config: ExternalIPs, conn: Connection)
    ensures var key := NormalizeConnection(t, config, conn);
            && key.container == conn.container && key.proto == conn.proto && key.isServer == ServerRole(conn)
            && key.local.port == (if ServerRole(conn) then conn.local.port else 0)
            && key.remote.port == (if ServerRole(conn) then 0 else conn.remote.port)
            && IsNullAddress(key.local.network.address)
  {
    hide NormalizeAddress;
  }

  /** Which end of a UDP connection is the server: the one whose remote port is ephemeral by a stronger convention. */
  lemma UdpRole(conn: Connection)
    requires conn.proto == Udp
    ensures var remote, local := conn.remote.port, conn.local.port;
            ServerRole(conn) <==>
            || (49152 <= remote && local < 49152)
            || (32768 <= remote < 49152 && local < 32768)
            || (1025 <= remote <= 5000 && (local < 1025 || 5000 < local < 32768))
            || (remote == 1024 && (local < 1024 || 5000 < local < 32768))
  {
  }

  // ----- the failing case

  const HOST := V4(38, 1, 2, 3)
  const OWN_ADDRESS := V4(38, 0, 0, 0)
  const V6_OVER_OWN := NetOf(Address(IPv6, [38, 0, 0, 0, 0, 0, 0, 0, 0, 0, 0, 0, 0, 0, 0, 0]), 24, false)

  lemma NotPrivate(a: Address)
    requires a.family == IPv4 && a.data[0] == 38
    ensures !Private(a)
  {
    PrivateV4ByBytes(a);
  }

  lemma LastBit()
    ensures !ByteBit(0, 7) && ByteBit(1, 7)
  {
  }

  function OverlapTables(): Tables {
    Tables(map[], StoreOf([V4_NET, V6_OVER_OWN]), {}, map[])
  }

  lemma NotCanonical(a: Address)
    requires a.data[1] != 0xff
    ensures !IsCanonicalExternal(a)
  {
    assert a.data[..4][1] != 0xff;
  }

  lemma OverlapNets()
    ensures V4_NET.bits == 8 && V4_NET.Family() == IPv4 && V4_NET.address == OWN_ADDRESS
    ensures V6_OVER_OWN.bits == 24 && V6_OVER_OWN.Family() == IPv6
    ensures Built(V4_NET) && Built(V6_OVER_OWN)
    ensures !IsCanonicalExternal(HOST) && !IsCanonicalExternal(OWN_ADDRESS) && !IsCanonicalExternal(V6_OVER_OWN.address)
    ensures !IsNullAddress(HOST) && !IsNullAddress(OWN_ADDRESS)
  {
    NotCanonical(HOST);
    NotCanonical(OWN_ADDRESS);
    NotCanonical(V6_OVER_OWN.address);
    hide IsCanonicalExternal;
    assert HOST.data[0] == 38 && OWN_ADDRESS.data[0] == 38;
  }

  lemma OverlapPrefixes()
    ensures var q, own := AddressNet(HOST).Prefix(), AddressNet(OWN_ADDRESS).Prefix();
            && V4_NET.Prefix() <= q && !(V6_OVER_OWN.Prefix() <= q)
            && V4_NET.Prefix() <= own && V6_OVER_OWN.Prefix() <= own
  {
    hide NetOf, AddressNet, AddressBits;
    OverlapNets();
    AddressNetBits(HOST);
    AddressNetBits(OWN_ADDRESS);
    var v6 := V6_OVER_OWN.address;
    OverlapBytes();
    SameBytesSameBits(OWN_ADDRESS, HOST, 1);
    SameBytesSameBits(v6, OWN_ADDRESS, 3);
    SecondByteDiffers(v6, HOST);
  }

  lemma OverlapBytes()
    ensures HOST.data[..1] == OWN_ADDRESS.data[..1] && V6_OVER_OWN.address.data[..3] == OWN_ADDRESS.data[..3]
    ensures V6_OVER_OWN.address.data[1] == 0 && HOST.data[1] == 1
  {
  }

  lemma SecondByteDiffers(a: Address, b: Address)
    requires a.data[1] == 0 && b.data[1] == 1
    ensures AddressBits(a)[15] != AddressBits(b)[15]
  {
    LastBit();
    hide ByteBit;
  }

  /**
   With 38.0.0.0/8 and 2600::/24 both known, 38.1.2.3 is reported as 38.0.0.0/8; switching external
   IPs off then closes that key although the snapshot has just confirmed it.
   */
  lemma OverlapClosesFreshKey()
    ensures Sound(OverlapTables()) && !IsCanonicalExternal(HOST)
    ensures NormalizeAddress(OverlapTables(), HOST, false) == V4_NET
    ensures ShouldClose(OverlapTables(), NormalizeAddress(OverlapTables(), HOST, false).address, false)
  {
    hide NetOf, AddressBits, AddressNet, Private, IsCanonicalExternal, IsNullAddress, StoreOf, Longest;
    var t := OverlapTables();
    OverlapNets();
    NullNetIsEmpty();
    NotPrivate(HOST);
    NotPrivate(OWN_ADDRESS);
    OverlapLookups();
    forall p ensures p in t.known ==> t.known[p] in [V4_NET, V6_OVER_OWN] {
      StoredPaths([V4_NET, V6_OVER_OWN], p);
    }
    NothingListed(AddressNet(HOST));
    NothingListed(AddressNet(OWN_ADDRESS));
    AddressNetBits(HOST);
    FreshKeyClosesExactly(t, HOST, false);
  }

  lemma NothingListed(q: IPNet)
    ensures FindIn(map[], q) == NULL_NET
  {
    LongestIsLongest(map[], q.Prefix());
  }

  lemma OverlapLookups()
    ensures Longest(OverlapTables().known, AddressNet(HOST).Prefix()) == Some(V4_NET)
    ensures Longest(OverlapTables().known, AddressNet(OWN_ADDRESS).Prefix()) == Some(V6_OVER_OWN)
  {
    OverlapNets();
    OverlapPrefixes();
    var one, both := [V4_NET], [V4_NET, V6_OVER_OWN];
    var q, own := AddressNet(HOST).Prefix(), AddressNet(OWN_ADDRESS).Prefix();
    hide NetOf, AddressBits, AddressNet, IsCanonicalExternal, IsNullAddress;
    LongestIsScan(both, q);
    LongestIsScan(both, own);
    assert one[..0] == [] && both[..1] == one;
    assert Scan(one, q, None) == Some(V4_NET) && Scan(one, own, None) == Some(V4_NET);
  }
}
