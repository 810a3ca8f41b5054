/**
 Longest-prefix matching on values: what a radix tree stores, what a lookup in it returns, and how
 that compares with scanning the list of networks it was built from (prefix notation as in section
 3.1 of RFC 4632).  Networks of both families share one tree, addressed by their raw bits.
 */
module PrefixMatch {
  import opened Words
  import opened Networks
  import opened Options

  type Path = seq<bool>
  type Store = map<Path, IPNet>

  predicate Keyed(s: Store) {
    forall p :: p in s ==> p != [] && s[p].Prefix() == p
  }

  function InsertInto(s: Store, n: IPNet): Store {
    if n.bits == 0 || n.Prefix() in s then s else s[n.Prefix() := n]
  }

  function StoreOf(nets: seq<IPNet>): (s: Store)
    ensures Keyed(s)
  {
    if nets == [] then map[] else InsertInto(StoreOf(nets[..|nets| - 1]), nets[|nets| - 1])
  }

  lemma StoreOfStep(nets: seq<IPNet>, k: nat)
    requires k < |nets|
    ensures StoreOf(nets[..k + 1]) == InsertInto(StoreOf(nets[..k]), nets[k])
  {
    assert nets[..k + 1][..k] == nets[..k];
  }

  /** The stored network with the longest path that `q` begins with. */
  function Longest(s: Store, q: Path): Option<IPNet> {
    if q in s then Some(s[q])
    else if q == [] then None
    else Longest(s, q[..|q| - 1])
  }

  /** A lookup: the longest raw match first, then the family test. */
  function FindIn(s: Store, q: IPNet): IPNet {
    if q.bits == 0 then NULL_NET
    else
      match Longest(s, q.Prefix())
      case Some(n) => if n.Family() == q.Family() then n else NULL_NET
      case None => NULL_NET
  }

  lemma ProperPrefix(p: Path, q: Path)
    requires p != q && q != []
    ensures p <= q <==> p <= q[..|q| - 1]
  {
  }

  lemma {:induction false} LongestIsLongest(s: Store, q: Path)
    requires Keyed(s)
    ensures match Longest(s, q)
            case None => forall p :: p in s ==> !(p <= q)
            case Some(n) => n.Prefix() in s && s[n.Prefix()] == n && n.Prefix() <= q
                            && forall p :: p in s && p <= q ==> |p| <= n.bits
  {
    if q !in s && q != [] {
      LongestIsLongest(s, q[..|q| - 1]);
      forall p | p in s && p <= q ensures p <= q[..|q| - 1] {
        ProperPrefix(p, q);
      }
    }
  }

  /** Nothing stored at or below `p`, a path on the way to `q`: the search may stop above `p`. */
  lemma {:induction false} LongestStops(s: Store, p: Path, q: Path)
    requires p != [] && p <= q && forall r :: p <= r ==> r !in s
    ensures Longest(s, q) == Longest(s, p[..|p| - 1])
  {
    if |p| < |q| {
      LongestStops(s, p, q[..|q| - 1]);
    } else {
      assert p == q;
    }
  }

  // ----- the linear scan

  /** The network raw-covers the query, whatever the families. */
  predicate RawCovers(n: IPNet, q: Path) {
    n.bits > 0 && n.Prefix() <= q
  }

  /** First among the longest networks of the list that cover `q`; `family` none means any family. */
  function Scan(nets: seq<IPNet>, q: Path, family: Option<Family>): Option<IPNet> {
    if nets == [] then None
    else
      var best, n := Scan(nets[..|nets| - 1], q, family), nets[|nets| - 1];
      if RawCovers(n, q) && (family.Some? ==> n.Family() == family.value) && (best.Some? ==> best.value.bits < n.bits)
      then Some(n) else best
  }

  function Found(r: Option<IPNet>): IPNet {
    match r
    case Some(n) => n
    case None => NULL_NET
  }

  lemma {:induction false} ScanResult(nets: seq<IPNet>, q: Path, family: Option<Family>)
    ensures match Scan(nets, q, family)
            case Some(n) => n in nets && RawCovers(n, q) && (family.Some? ==> n.Family() == family.value)
            case None => true
    ensures forall n :: n in nets && RawCovers(n, q) && (family.Some? ==> n.Family() == family.value)
                        ==> Scan(nets, q, family).Some? && n.bits <= Scan(nets, q, family).value.bits
  {
    hide RawCovers, AddressBits, IPNet.Prefix;
    if nets != [] {
      var k := |nets| - 1;
      ScanResult(nets[..k], q, family);
      assert nets == nets[..k] + [nets[k]];
    }
  }

  lemma {:induction false} LongestAfterUpdate(s: Store, n: IPNet, q: Path)
    requires Keyed(s) && n.bits > 0 && n.Prefix() !in s
    ensures Longest(s[n.Prefix() := n], q) ==
            if n.Prefix() <= q && (Longest(s, q).Some? ==> Longest(s, q).value.bits < n.bits) then Some(n)
            else Longest(s, q)
  {
    hide AddressBits;
    LongestIsLongest(s, q);
    if q !in s && q != n.Prefix() && q != [] {
      LongestAfterUpdate(s, n, q[..|q| - 1]);
      ProperPrefix(n.Prefix(), q);
    } else if q == n.Prefix() && Longest(s, q).Some? {
      var p := Longest(s, q).value.Prefix();
      assert p != q && p == q[..|p|];
    }
  }

  lemma LongestAfterInsert(s: Store, n: IPNet, q: Path)
    requires Keyed(s)
    ensures Longest(InsertInto(s, n), q) ==
            if RawCovers(n, q) && (Longest(s, q).Some? ==> Longest(s, q).value.bits < n.bits) then Some(n)
            else Longest(s, q)
  {
    hide AddressBits;
    LongestIsLongest(s, q);
    if n.bits > 0 && n.Prefix() !in s {
      LongestAfterUpdate(s, n, q);
    }
  }

  /** Looking up the longest raw match is scanning the list without regard to family. */
  lemma {:induction false} LongestIsScan(nets: seq<IPNet>, q: Path)
    ensures Longest(StoreOf(nets), q) == Scan(nets, q, None)
  {
    if nets == [] {
      LongestIsLongest(map[], q);
    } else {
      LongestIsScan(nets[..|nets| - 1], q);
      LongestAfterInsert(StoreOf(nets[..|nets| - 1]), nets[|nets| - 1], q);
    }
  }

  /** A longer or earlier network of another family hides the best network of the query's own. */
  predicate Shadowed(nets: seq<IPNet>, q: IPNet) {
    var raw, own := Scan(nets, q.Prefix(), None), Scan(nets, q.Prefix(), Some(q.Family()));
    own.Some? && raw.Some? && raw.value.Family() != q.Family()
  }

  lemma {:induction false} UnshadowedScan(nets: seq<IPNet>, q: Path, family: Family)
    requires var raw := Scan(nets, q, None); raw.Some? && raw.value.Family() == family
    ensures Scan(nets, q, Some(family)) == Scan(nets, q, None)
  {
    var k := |nets| - 1;
    var n, raw := nets[k], Scan(nets, q, None);
    if Scan(nets[..k], q, None) == raw {
      UnshadowedScan(nets[..k], q, family);
    } else {
      ScanResult(nets[..k], q, None);
      ScanResult(nets[..k], q, Some(family));
    }
  }

  /**
   For every list of networks and every query, the tree answers with the longest covering network
   of the query's family, as the scan of the list does, if and only if none of another family hides it.
   */
  lemma FindAgreesWithScan(nets: seq<IPNet>, q: IPNet)
    requires q.bits > 0
    ensures FindIn(StoreOf(nets), q) == Found(Scan(nets, q.Prefix(), Some(q.Family()))) <==> !Shadowed(nets, q)
  {
    LongestIsScan(nets, q.Prefix());
    ScanResult(nets, q.Prefix(), None);
    ScanResult(nets, q.Prefix(), Some(q.Family()));
    if Scan(nets, q.Prefix(), None).Some? && Scan(nets, q.Prefix(), None).value.Family() == q.Family() {
      UnshadowedScan(nets, q.Prefix(), q.Family());
    }
  }

  /** With networks of one family there is nothing to hide behind. */
  lemma OneFamilyFindIsScan(nets: seq<IPNet>, q: IPNet)
    requires q.bits > 0 && forall n :: n in nets ==> n.Family() == q.Family()
    ensures FindIn(StoreOf(nets), q) == Found(Scan(nets, q.Prefix(), Some(q.Family())))
  {
    ScanResult(nets, q.Prefix(), None);
    FindAgreesWithScan(nets, q);
  }

  /**
   Where no network of the other family begins like an address, the address has a network exactly
   when some network of the list contains it.
   */
  lemma AddressHasNetwork(nets: seq<IPNet>, a: Address)
    requires a.family != Unknown
    requires forall n :: n in nets ==> Built(n) && (RawCovers(n, AddressNet(a).Prefix()) ==> n.Family() == a.family)
    ensures FindIn(StoreOf(nets), AddressNet(a)) != NULL_NET <==> exists n :: n in nets && n.bits > 0 && Covers(n, a)
    ensures var r := FindIn(StoreOf(nets), AddressNet(a)); r != NULL_NET ==> r in nets && Covers(r, a)
  {
    hide NetOf, AddressBits;
    var q := AddressNet(a);
    BuiltBits(a, MaxBits(a.family), true);
    AddressNetBits(a);
    ScanResult(nets, q.Prefix(), None);
    FindAgreesWithScan(nets, q);
    ScanResult(nets, q.Prefix(), Some(a.family));
    forall n | n in nets ensures n.bits > 0 && Covers(n, a) <==> RawCovers(n, q.Prefix()) {
      BuiltBits(n.address, n.bits, n.isAddress);
      assert n.Family() == a.family ==> n.bits <= q.bits;
      assert n.bits <= q.bits ==> (n.Prefix() <= AddressBits(a) <==> n.Prefix() <= AddressBits(a)[..q.bits]);
    }
    NullNetIsEmpty();
  }

  lemma AddressNetBits(a: Address)
    ensures AddressNet(a).bits == MaxBits(a.family) && AddressNet(a).address == a
  {
  }

  lemma NullNetIsEmpty()
    ensures NULL_NET.bits == 0 && NULL_NET.Family() == Unknown && NULL_NET.IsNull()
  {
  }

  // ----- is any network of one store inside a network of another

  predicate FamiliesMatch(family: Family, a: IPNet, b: IPNet) {
    if family == Unknown then a.Family() == b.Family() else a.Family() == family && b.Family() == family
  }

  /** At `p`, the nearest networks above in both stores are of the wanted family. */
  predicate Hit(s1: Store, s2: Store, family: Family, p: Path) {
    var n1, n2 := Longest(s1, p), Longest(s2, p);
    n1.Some? && n2.Some? && FamiliesMatch(family, n1.value, n2.value)
  }

  /** What the lockstep walk decides: some point on the way to a network of `s2` is a hit. */
  ghost predicate WalkHits(s1: Store, s2: Store, family: Family) {
    exists q, k :: q in s2 && 0 <= k <= |q| && Hit(s1, s2, family, q[..k])
  }

  /** What the walk is for: some network of `s2` lies inside a network of `s1`. */
  ghost predicate AnySubset(s1: Store, s2: Store, family: Family) {
    exists p, q :: p in s1 && q in s2 && p <= q && FamiliesMatch(family, s1[p], s2[q])
  }

  /** Networks of different families never overlap in their raw bits. */
  ghost predicate NoOverlap(s: Store, t: Store) {
    forall p, q :: p in s && q in t && (p <= q || q <= p) ==> s[p].Family() == t[q].Family()
  }

  /** The nearest network of `s1` above some network of `s2` is of the wanted family, and so is that one. */
  ghost predicate Visible(s1: Store, s2: Store, family: Family) {
    exists t :: t in s2 && Longest(s1, t).Some? && FamiliesMatch(family, Longest(s1, t).value, s2[t])
  }

  /**
   On the way to some network of `s2` lies a network of `s1` whose nearest network of `s2` is above
   it: the walk takes that one, which contains more, for contained.
   */
  ghost predicate Bait(s1: Store, s2: Store, family: Family) {
    exists p, q :: p in s1 && q in s2 && p <= q && p !in s2
                   && Longest(s2, p).Some? && FamiliesMatch(family, s1[p], Longest(s2, p).value)
  }

  /** The longest match of `q` stays the longest on any shorter path that still begins with it. */
  lemma LongestAbove(s: Store, p: Path, q: Path)
    requires Keyed(s) && p <= q && Longest(s, q).Some? && Longest(s, q).value.Prefix() <= p
    ensures Longest(s, p) == Longest(s, q)
  {
    hide AddressBits;
    LongestIsLongest(s, p);
    LongestIsLongest(s, q);
    var m := Longest(s, q).value;
    var r := Longest(s, p).value;
    assert r.Prefix() <= q && r.bits == m.bits;
    assert r.Prefix() == q[..m.bits] == m.Prefix();
  }

  lemma HitIsVisibleOrBait(s1: Store, s2: Store, family: Family, q: Path, k: nat)
    requires Keyed(s1) && Keyed(s2) && q in s2 && k <= |q| && Hit(s1, s2, family, q[..k])
    ensures Visible(s1, s2, family) || Bait(s1, s2, family)
  {
    hide AddressBits, Longest;
    var x := q[..k];
    LongestIsLongest(s1, x);
    LongestIsLongest(s2, x);
    var p, r := Longest(s1, x).value.Prefix(), Longest(s2, x).value.Prefix();
    if |p| <= |r| {
      assert p <= r;
      LongestAbove(s1, r, x);
      assert r in s2 && FamiliesMatch(family, Longest(s1, r).value, s2[r]);
    } else {
      assert r <= p && p !in s2;
      LongestAbove(s2, p, x);
      assert p in s1 && p <= q && FamiliesMatch(family, s1[p], Longest(s2, p).value);
    }
  }

  lemma BaitIsHit(s1: Store, s2: Store, family: Family)
    requires Bait(s1, s2, family)
    ensures WalkHits(s1, s2, family)
  {
    hide FamiliesMatch;
    var p, q :| p in s1 && q in s2 && p <= q && p !in s2
                && Longest(s2, p).Some? && FamiliesMatch(family, s1[p], Longest(s2, p).value);
    assert q[..|p|] == p && Hit(s1, s2, family, q[..|p|]);
  }

  lemma VisibleIsHit(s1: Store, s2: Store, family: Family)
    requires Visible(s1, s2, family)
    ensures WalkHits(s1, s2, family)
  {
    hide FamiliesMatch;
    var t :| t in s2 && Longest(s1, t).Some? && FamiliesMatch(family, Longest(s1, t).value, s2[t]);
    assert t[..|t|] == t && Hit(s1, s2, family, t[..|t|]);
  }

  /** Exactly what the walk answers on any two trees, whatever families they mix. */
  lemma WalkAnswers(s1: Store, s2: Store, family: Family)
    requires Keyed(s1) && Keyed(s2)
    ensures WalkHits(s1, s2, family) <==> Visible(s1, s2, family) || Bait(s1, s2, family)
  {
    hide Hit, Visible, Bait, Keyed;
    if WalkHits(s1, s2, family) {
      var q, k :| q in s2 && 0 <= k <= |q| && Hit(s1, s2, family, q[..k]);
      HitIsVisibleOrBait(s1, s2, family, q, k);
    } else if Visible(s1, s2, family) {
      VisibleIsHit(s1, s2, family);
    } else if Bait(s1, s2, family) {
      BaitIsHit(s1, s2, family);
    }
  }

  lemma VisibleIsSubset(s1: Store, s2: Store, family: Family)
    requires Keyed(s1) && Visible(s1, s2, family)
    ensures AnySubset(s1, s2, family)
  {
    hide AddressBits;
    var t :| t in s2 && Longest(s1, t).Some? && FamiliesMatch(family, Longest(s1, t).value, s2[t]);
    LongestIsLongest(s1, t);
    assert Longest(s1, t).value.Prefix() <= t;
  }

  /**
   The two errors of the walk.  It says yes wrongly exactly on bait with nothing inside, and no
   wrongly exactly when something is inside but not visible, and there is no bait.
   */
  lemma WalkErrors(s1: Store, s2: Store, family: Family)
    requires Keyed(s1) && Keyed(s2)
    ensures WalkHits(s1, s2, family) && !AnySubset(s1, s2, family) <==>
            Bait(s1, s2, family) && !AnySubset(s1, s2, family)
    ensures !WalkHits(s1, s2, family) && AnySubset(s1, s2, family) <==>
            AnySubset(s1, s2, family) && !Visible(s1, s2, family) && !Bait(s1, s2, family)
  {
    hide AnySubset, Visible, Bait, WalkHits;
    WalkAnswers(s1, s2, family);
    if Visible(s1, s2, family) {
      VisibleIsSubset(s1, s2, family);
    }
  }

  /** The walk cannot err toward yes where the two trees do not overlap across families. */
  lemma BaitIsHonest(s1: Store, s2: Store, family: Family)
    requires Keyed(s2) && NoOverlap(s1, s2) && Bait(s1, s2, family)
    ensures AnySubset(s1, s2, family)
  {
    hide AddressBits;
    var p, q :| p in s1 && q in s2 && p <= q && p !in s2
                && Longest(s2, p).Some? && FamiliesMatch(family, s1[p], Longest(s2, p).value);
    LongestIsLongest(s2, p);
    var r := Longest(s2, p).value.Prefix();
    assert r in s2 && r <= p && s2[r].Family() == s1[p].Family() == s2[q].Family();
    assert FamiliesMatch(family, s1[p], s2[q]);
  }

  /** Nor toward no where the first tree does not overlap itself across families. */
  lemma NothingIsHidden(s1: Store, s2: Store, family: Family)
    requires Keyed(s1) && NoOverlap(s1, s1) && AnySubset(s1, s2, family)
    ensures Visible(s1, s2, family)
  {
    hide AddressBits;
    var p, q :| p in s1 && q in s2 && p <= q && FamiliesMatch(family, s1[p], s2[q]);
    LongestIsLongest(s1, q);
    var r := Longest(s1, q).value.Prefix();
    assert r in s1 && p <= r;
    assert FamiliesMatch(family, s1[r], s2[q]);
  }

  /**
   Without cross-family overlap, and so in particular with one family, the walk finds a hit exactly
   when some network of the second store lies inside one of the first.
   */
  lemma WalkIsSubset(s1: Store, s2: Store, family: Family)
    requires Keyed(s1) && Keyed(s2) && NoOverlap(s1, s2) && NoOverlap(s1, s1)
    ensures WalkHits(s1, s2, family) <==> AnySubset(s1, s2, family)
  {
    hide AnySubset, Visible, Bait, WalkHits, NoOverlap;
    WalkErrors(s1, s2, family);
    if AnySubset(s1, s2, family) {
      NothingIsHidden(s1, s2, family);
    } else if Bait(s1, s2, family) {
      BaitIsHonest(s1, s2, family);
    }
  }

  /** What that means for the family asked for: both networks are of it, or, asked for any, of one. */
  lemma WalkByFamily(s1: Store, s2: Store, family: Family)
    requires Keyed(s1) && Keyed(s2) && NoOverlap(s1, s2) && NoOverlap(s1, s1)
    ensures family != Unknown ==>
            (WalkHits(s1, s2, family) <==>
             exists p, q :: p in s1 && q in s2 && p <= q && s1[p].Family() == family && s2[q].Family() == family)
    ensures family == Unknown ==>
            (WalkHits(s1, s2, family) <==>
             exists p, q :: p in s1 && q in s2 && p <= q && s1[p].Family() == s2[q].Family())
  {
    hide WalkHits, NoOverlap, Keyed;
    WalkIsSubset(s1, s2, family);
  }

  /** The paths of a store are the prefixes of the listed networks. */
  lemma {:induction false} StoredPaths(nets: seq<IPNet>, p: Path)
    ensures p in StoreOf(nets) <==> exists n :: n in nets && n.bits > 0 && n.Prefix() == p
    ensures p in StoreOf(nets) ==> StoreOf(nets)[p] in nets
  {
    hide AddressBits, IPNet.Prefix;
    if nets != [] {
      var k := |nets| - 1;
      StoredPaths(nets[..k], p);
      assert nets == nets[..k] + [nets[k]];
    }
  }

  /** Network `b` lies inside network `a`. */
  predicate Inside(a: IPNet, b: IPNet) {
    a.Family() == b.Family() && 0 < a.bits && 0 < b.bits && a.Prefix() <= b.Prefix()
  }

  /**
   For trees built from any two lists of networks of one family, the lockstep walk answers whether
   some network of the second list lies inside some network of the first; asked for another family,
   it answers no.
   */
  lemma OneFamilySubset(nets1: seq<IPNet>, nets2: seq<IPNet>, family: Family, wanted: Family)
    requires forall n :: n in nets1 || n in nets2 ==> n.Family() == family
    ensures WalkHits(StoreOf(nets1), StoreOf(nets2), wanted) <==>
            (wanted == Unknown || wanted == family) && exists a, b :: a in nets1 && b in nets2 && Inside(a, b)
  {
    hide AddressBits, IPNet.Prefix, WalkHits, StoreOf;
    var s1, s2 := StoreOf(nets1), StoreOf(nets2);
    forall p ensures p in s1 ==> s1[p] in nets1 ensures p in s2 ==> s2[p] in nets2 {
      StoredPaths(nets1, p);
      StoredPaths(nets2, p);
    }
    WalkByFamily(s1, s2, wanted);
    if WalkHits(s1, s2, wanted) {
      var p, q :| p in s1 && q in s2 && p <= q && s1[p].Family() == s2[q].Family();
      assert Inside(s1[p], s2[q]);
    }
    if a, b :| a in nets1 && b in nets2 && Inside(a, b) {
      StoredPaths(nets1, a.Prefix());
      StoredPaths(nets2, b.Prefix());
    }
  }

  // ----- both families in one tree

  lemma SameBytesSameBits(a: Address, b: Address, k: nat)
    requires k <= 16 && a.data[..k] == b.data[..k]
    ensures AddressBits(a)[..8 * k] == AddressBits(b)[..8 * k]
  {
    forall i | 0 <= i < 8 * k ensures AddressBits(a)[i] == AddressBits(b)[i] {
      assert a.data[..k][i / 8] == b.data[..k][i / 8];
    }
  }

  const V4_NET := NetOf(V4(38, 0, 0, 0), 8, false)
  const V6_NET := NetOf(Address(IPv6, [38, 0, 31, 0, 0, 0, 0, 0, 0, 0, 0, 0, 0, 0, 0, 0]), 24, false)
  const V4_HOST := V4(38, 0, 31, 5)

  lemma ExampleNets()
    ensures V4_NET.bits == 8 && V4_NET.Family() == IPv4 && V6_NET.bits == 24 && V6_NET.Family() == IPv6
    ensures AddressNet(V4_HOST).bits == 32 && AddressNet(V4_HOST).Family() == IPv4
    ensures V4_NET.Prefix() <= AddressNet(V4_HOST).Prefix() && V6_NET.Prefix() <= AddressNet(V4_HOST).Prefix()
  {
    hide AddressBits;
    SameBytesSameBits(V4_NET.address, V4_HOST, 1);
    SameBytesSameBits(V6_NET.address, V4_HOST, 3);
  }

  /** 38.0.31.5 lies in 38.0.0.0/8, yet with 2600:1f00::/24 in the tree the lookup finds nothing. */
  lemma MixedFamiliesHide()
    ensures FindIn(StoreOf([V4_NET]), AddressNet(V4_HOST)) == V4_NET
    ensures FindIn(StoreOf([V4_NET, V6_NET]), AddressNet(V4_HOST)) == NULL_NET
  {
    hide AddressBits, NetOf, AddressNet;
    ExampleNets();
    var q := AddressNet(V4_HOST).Prefix();
    var one, both := [V4_NET], [V4_NET, V6_NET];
    LongestIsScan(one, q);
    LongestIsScan(both, q);
    assert one[..0] == [] && both[..1] == one;
    assert Scan(one, q, None) == Some(V4_NET);
    assert Scan(both, q, None) == Some(V6_NET);
  }

  const V4_WIDER := NetOf(V4(36, 0, 0, 0), 6, false)

  lemma WiderNet()
    ensures V4_WIDER.bits == 6 && V4_WIDER.Family() == IPv4 && V4_WIDER.Prefix() <= V4_NET.Prefix()
    ensures V4_NET.Prefix() <= V6_NET.Prefix()
  {
    ExampleNets();
    SameBytesSameBits(V4_NET.address, V6_NET.address, 1);
    FirstSixBits(V4_WIDER.address, V4_NET.address);
  }

  lemma FirstSixBits(a: Address, b: Address)
    requires a.data[0] == 36 && b.data[0] == 38
    ensures AddressBits(a)[..6] == AddressBits(b)[..6]
  {
    assert forall i :: 0 <= i < 6 ==> ByteBit(36, i) == ByteBit(38, i);
    hide ByteBit;
  }

  /**
   With both families in one tree the walk can answer yes wrongly: below 36.0.0.0/6, which is not
   inside 38.0.0.0/8, it goes on toward 2600:1f00::/24 and meets 38.0.0.0/8 on the way.
   */
  lemma MixedFamiliesFoolTheWalk()
    ensures var s1, s2 := map[V4_NET.Prefix() := V4_NET], map[V4_WIDER.Prefix() := V4_WIDER, V6_NET.Prefix() := V6_NET];
            Keyed(s1) && Keyed(s2) && WalkHits(s1, s2, IPv4) && !AnySubset(s1, s2, IPv4)
  {
    ExampleNets();
    WiderNet();
    hide AddressBits, NetOf, IPNet.Prefix, AddressNet;
    var a, b, q := V4_NET.Prefix(), V4_WIDER.Prefix(), V6_NET.Prefix();
    var s1, s2 := map[a := V4_NET], map[b := V4_WIDER, q := V6_NET];
    assert |a| == 8 && |b| == 6 && |q| == 24;
    LongestIsLongest(s1, a);
    LongestIsLongest(s2, a);
    assert b in s2 && b <= a && Longest(s2, a).Some?;
    var m := Longest(s2, a).value.Prefix();
    assert m in s2 && |m| <= 8 && m == b;
    assert q[..8] == a && Hit(s1, s2, IPv4, q[..8]);
  }

  const V4_INNER := NetOf(V4(38, 0, 31, 0), 24, false)

  lemma InnerNet()
    ensures V4_INNER.bits == 24 && V4_INNER.Family() == IPv4
    ensures V4_NET.Prefix() <= V4_INNER.Prefix() == V6_NET.Prefix()
  {
    hide AddressBits;
    ExampleNets();
    SameBytesSameBits(V4_NET.address, V4_INNER.address, 1);
    SameBytesSameBits(V6_NET.address, V4_INNER.address, 3);
  }

  /**
   And it can answer no wrongly: 38.0.31.0/24 lies inside 38.0.0.0/8, but in the first tree
   2600:1f00::/24 stands between them.
   */
  lemma MixedFamiliesBlindTheWalk()
    ensures var s1, s2 := map[V4_NET.Prefix() := V4_NET, V6_NET.Prefix() := V6_NET], map[V4_INNER.Prefix() := V4_INNER];
            Keyed(s1) && Keyed(s2) && !WalkHits(s1, s2, IPv4) && AnySubset(s1, s2, IPv4)
  {
    ExampleNets();
    InnerNet();
    hide AddressBits, NetOf, IPNet.Prefix, AddressNet, WalkHits;
    var a, q := V4_NET.Prefix(), V6_NET.Prefix();
    var s1, s2 := map[a := V4_NET, q := V6_NET], map[q := V4_INNER];
    assert |a| == 8 && |q| == 24;
    assert a in s1 && q in s2 && FamiliesMatch(IPv4, s1[a], s2[q]);
    assert Longest(s1, q) == Some(V6_NET);
    LongestIsLongest(s2, a);
    WalkAnswers(s1, s2, IPv4);
  }
}
