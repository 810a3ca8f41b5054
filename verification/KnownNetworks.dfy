/**
 The known networks as the collector takes them over: one tree for all families, and for each family
 a mark whether it has to do with private networks at all.
 */
module KnownNetworks {
  import opened Networks
  import opened Normalization
  import opened PrefixMatch
  import opened RadixTree

  /** Whether some network of the tree holds a private one of the family or lies inside one. */
  method ContainsPrivateNetwork(family: Family, tree: Tree, privateTree: Tree) returns (r: bool)
    requires tree.Valid() && privateTree.Valid() && privateTree.Stored() == PrivateStore()
    ensures r <==> HasPrivate(tree.Stored(), family)
  {
    hide *;
    r := tree.IsAnyIPNetSubset(family, privateTree);
    if !r {
      r := privateTree.IsAnyIPNetSubset(family, tree);
    }
    HasPrivateIs(tree.Stored(), family);
  }

  lemma HasPrivateIs(known: Store, family: Family)
    ensures HasPrivate(known, family) <==>
            WalkHits(known, PrivateStore(), family) || WalkHits(PrivateStore(), known, family)
  {
    hide WalkHits, PrivateStore;
  }

  /** The families are visited in any order; `all` is the order in which the networks were inserted. */
  method InsertFamilies(nets: map<Family, seq<IPNet>>) returns (tree: Tree, ghost all: seq<IPNet>)
    ensures fresh(tree) && fresh(tree.nodes.Values) && tree.Valid() && tree.Stored() == StoreOf(all)
    ensures forall n :: n in all <==> exists f :: f in nets && n in nets[f]
  {
    tree := new Tree();
    all := [];
    var todo := nets.Keys;
    while todo != {}
      invariant fresh(tree) && fresh(tree.nodes.Values) && tree.Valid() && tree.Stored() == StoreOf(all)
      invariant todo <= nets.Keys
      invariant forall n :: n in all <==> exists f :: f in nets.Keys - todo && n in nets[f]
      decreases todo
    {
      hide *;
      var f :| f in todo;
      tree.InsertAll(nets[f], all);
      all := all + nets[f];
      todo := todo - {f};
    }
  }

  /** The tables after the known networks are updated. */
  method UpdateKnownIPNetworks(nets: map<Family, seq<IPNet>>, privateTree: Tree)
    returns (tree: Tree, marks: map<Family, bool>, ghost all: seq<IPNet>)
    requires privateTree.Valid() && privateTree.Stored() == PrivateStore()
    ensures tree.Valid() && tree.Stored() == StoreOf(all)
    ensures forall n :: n in all <==> exists f :: f in nets && n in nets[f]
    ensures marks.Keys == nets.Keys && forall f :: f in marks ==> (marks[f] <==> HasPrivate(tree.Stored(), f))
  {
    hide *;
    tree, all := InsertFamilies(nets);
    marks := map[];
    var todo := nets.Keys;
    while todo != {}
      invariant tree.Valid() && tree.Stored() == StoreOf(all)
      invariant todo <= nets.Keys && marks.Keys == nets.Keys - todo
      invariant forall f :: f in marks ==> (marks[f] <==> HasPrivate(tree.Stored(), f))
      decreases todo
    {
      var f :| f in todo;
      var mark := ContainsPrivateNetwork(f, tree, privateTree);
      marks := marks[f := mark];
      todo := todo - {f};
    }
  }

  /** So with the tables of an update, looking up or skipping the lookup gives a private address the same key. */
  lemma UpdatedTablesKeepKeys(t: Tables, a: Address, externalIPs: bool)
    requires Sound(t) && NoOverlap(t.known, t.known) && Private(a) && !IsNullAddress(a)
    requires forall f :: f in t.privateKnown ==> (t.privateKnown[f] <==> HasPrivate(t.known, f))
    ensures NormalizeAddress(t, a, externalIPs) == NormalizeAddress(t.(privateKnown := map[]), a, externalIPs)
  {
    hide *;
    ShortcutIsSound(t, a, externalIPs);
  }
}
