/**
 The radix tree on the heap, walked with 64-bit word cursors and masks.  A ghost map gives the node
 at every path, so that a step of a walk or a newly linked node concerns one path only.
 */
module RadixTree {
  import opened Words
  import opened Networks
  import opened PrefixMatch
  import opened Options

  class Node {
    var value: Option<IPNet>
    var left: Node?
    var right: Node?

    constructor ()
      ensures value == None && left == null && right == null
    {
      value, left, right := None, null, null;
    }

    constructor With(value: Option<IPNet>, left: Node?, right: Node?)
      ensures this.value == value && this.left == left && this.right == right
    {
      this.value, this.left, this.right := value, left, right;
    }
  }

  // ----- the cursor: word index, and the mask of the current bit in that word

  predicate CursorAt(d: nat, i: nat, bit: Word) {
    d < 128 && i == d / 64 && bit == BitAt(d % 64)
  }

  lemma CursorReads(n: IPNet, d: nat, i: nat, bit: Word)
    requires CursorAt(d, i, bit)
    ensures d < 128 && i < 2
    ensures NonZero(And(bit, NetMaskArray(n.bits)[i])) <==> d < n.bits
    ensures NonZero(And(Ntohll(RawWord(n.address, i)), bit)) <==> AddressBits(n.address)[d]
  {
    hide RawWord, And, NonZero, Ntohll, AddressBits, BitAt, NetMaskArray;
    NetMaskBit(n.bits, d);
    TestBit(NetMaskArray(n.bits)[i], d % 64);
    WordOfBits(n.address, n.address, i);
    TestBit(Ntohll(RawWord(n.address, i)), d % 64);
    assert AddressBits(n.address)[64 * i..64 * i + 64][d % 64] == AddressBits(n.address)[d];
  }

  lemma CursorMoves(d: nat, i: nat, bit: Word)
    requires CursorAt(d, i, bit)
    ensures ShiftRight(bit, 1) == ZERO <==> (d + 1) % 64 == 0
    ensures ShiftRight(bit, 1) != ZERO ==> CursorAt(d + 1, i, ShiftRight(bit, 1))
    ensures ShiftRight(bit, 1) == ZERO && i == 0 ==> CursorAt(d + 1, 1, BitAt(0))
    ensures ShiftRight(bit, 1) == ZERO && i == 1 ==> d == 127
  {
    NextBit(d % 64);
  }

  lemma CursorStarts()
    ensures CursorAt(0, 0, BitAt(0))
  {
  }

  lemma PrefixStep(network: IPNet, path: Path)
    requires path <= network.Prefix() && |path| < network.bits
    ensures var step := path + [AddressBits(network.address)[|path|]];
            step <= network.Prefix() && network.Prefix()[..|path| + 1] == step
  {
    hide AddressBits;
  }

  /** One bit further; after the last bit of a word the masks move on to the next word, if there is one. */
  method Advance(network: IPNet, bit: Word, i: nat, w: nat, ghost d: nat)
    returns (bit': Word, i': nat, w': nat, end: bool)
    requires CursorAt(d, w, bit) && i == w && d < network.bits
    ensures end <==> d == 127
    ensures !end ==> CursorAt(d + 1, w', bit') && i' == w' < 2
  {
    CursorMoves(d, w, bit);
    bit', i', w', end := ShiftRight(bit, 1), i, w, false;
    if bit' == ZERO {
      i' := i' + 1;
      if i' >= 2 {
        end := true;
        return;
      }
      bit' := BitAt(0);
      if network.bits >= 64 {
        w' := w' + 1;
      }
    }
  }

  lemma SnocInjective(p: Path, b: bool, q: Path, c: bool)
    ensures p + [b] == q + [c] <==> p == q && b == c
  {
    assert (p + [b])[..|p|] == p && (q + [c])[..|q|] == q;
  }

  /** The node one step below `p`, if there is one. */
  ghost function Child(nodes: map<Path, Node>, p: Path, b: bool): Node? {
    if p + [b] in nodes then nodes[p + [b]] else null
  }

  /** Distinct nodes on a set of paths that holds the root and every path's parent. */
  ghost predicate Shape(nodes: map<Path, Node>) {
    && [] in nodes
    && (forall p :: p in nodes ==> |p| <= 128)
    && (forall p, q :: p in nodes && q in nodes && nodes[p] == nodes[q] ==> p == q)
    && (forall p, b {:trigger p + [b]} :: p + [b] in nodes ==> p in nodes)
  }

  lemma ShapeGrows(nodes: map<Path, Node>, path: Path, b: bool, next: Node)
    requires Shape(nodes) && path in nodes && path + [b] !in nodes && |path| < 128 && next !in nodes.Values
    ensures Shape(nodes[path + [b] := next])
    ensures forall p, c {:trigger Child(nodes[path + [b] := next], p, c)} :: Child(nodes[path + [b] := next], p, c) ==
              if p == path && c == b then next else Child(nodes, p, c)
    ensures Child(nodes[path + [b] := next], path + [b], false) == null
    ensures Child(nodes[path + [b] := next], path + [b], true) == null
    ensures var grown := nodes[path + [b] := next];
            [] != path + [b] && path + [b] + [false] !in grown && path + [b] + [true] !in grown
  {
    forall p, c: bool ensures p + [c] == path + [b] <==> p == path && c == b {
      SnocInjective(p, c, path, b);
    }
    forall c: bool ensures path + [b] + [c] !in nodes {
      assert path + [b] + [c] in nodes ==> path + [b] in nodes;
    }
  }

  /** Nodes were only added, all on the way to `target`. */
  ghost predicate Grew(before: map<Path, Node>, after: map<Path, Node>, target: Path) {
    && (forall p :: p in before ==> p in after && after[p] == before[p])
    && (forall p :: p in after && p !in before ==> p <= target)
  }

  lemma GrewNothing(nodes: map<Path, Node>, target: Path)
    ensures Grew(nodes, nodes, target)
  {
  }

  lemma GrewStep(before: map<Path, Node>, nodes: map<Path, Node>, target: Path, step: Path, next: Node)
    requires Grew(before, nodes, target) && step !in nodes && step <= target
    ensures Grew(before, nodes[step := next], target) && step !in before
  {
  }

  /** The longest match strictly above `path`. */
  function Above(s: Store, path: Path): Option<IPNet> {
    if path == [] then None else Longest(s, path[..|path| - 1])
  }

  /** The same paths at or below `p`, with distinct nodes. */
  ghost predicate SameBelow(nodes: map<Path, Node>, copies: map<Path, Node>, p: Path) {
    && (forall q :: q in copies <==> q in nodes && p <= q)
    && (forall q, r :: q in copies && r in copies && copies[q] == copies[r] ==> q == r)
  }

  ghost predicate Halves(lefts: map<Path, Node>, rights: map<Path, Node>, p: Path) {
    && (forall q :: q in lefts ==> |q| > |p| && !q[|p|])
    && (forall q :: q in rights ==> |q| > |p| && q[|p|])
  }

  /** No node occurs in both halves, and the new one in neither. */
  ghost predicate Apart(lefts: map<Path, Node>, rights: map<Path, Node>, copy: Node) {
    && (forall q :: q in lefts ==> lefts[q] != copy)
    && (forall q :: q in rights ==> rights[q] != copy)
    && (forall q, r :: q in lefts && r in rights ==> lefts[q] != rights[r])
  }

  lemma OneBelow(p: Path, q: Path)
    ensures p <= q <==> q == p || p + [false] <= q || p + [true] <= q
    ensures p + [false] <= q ==> |q| > |p| && !q[|p|]
    ensures p + [true] <= q ==> |q| > |p| && q[|p|]
  {
    if p <= q && q != p {
      var b := q[|p|];
      assert q[..|p| + 1] == p + [b];
    }
  }

  lemma JoinBelow(nodes: map<Path, Node>, lefts: map<Path, Node>, rights: map<Path, Node>, copy: Node, p: Path)
    requires p in nodes && SameBelow(nodes, lefts, p + [false]) && SameBelow(nodes, rights, p + [true])
    requires Apart(lefts, rights, copy)
    ensures SameBelow(nodes, lefts + rights + map[p := copy], p) && Halves(lefts, rights, p)
  {
    var all := lefts + rights + map[p := copy];
    forall q ensures q in all <==> q in nodes && p <= q {
      OneBelow(p, q);
    }
    forall q ensures q in lefts ==> |q| > |p| && !q[|p|] ensures q in rights ==> |q| > |p| && q[|p|] {
      OneBelow(p, q);
    }
    forall q, r | q in all && r in all && all[q] == all[r] ensures q == r {
      JoinInjective(lefts, rights, copy, p, q, r);
    }
  }

  lemma JoinInjective(lefts: map<Path, Node>, rights: map<Path, Node>, copy: Node, p: Path, q: Path, r: Path)
    requires Apart(lefts, rights, copy)
    requires forall q, r :: q in lefts && r in lefts && lefts[q] == lefts[r] ==> q == r
    requires forall q, r :: q in rights && r in rights && rights[q] == rights[r] ==> q == r
    requires var all := lefts + rights + map[p := copy]; q in all && r in all && all[q] == all[r]
    ensures q == r
  {
  }

  /** A child lies in the same half as its parent. */
  lemma ChildInJoin(lefts: map<Path, Node>, rights: map<Path, Node>, copy: Node, p: Path, q: Path, b: bool)
    requires Halves(lefts, rights, p) && (q == p || q in lefts || q in rights)
    ensures var all := lefts + rights + map[p := copy];
            Child(all, q, b) ==
            if q == p then (if b then Child(rights, p, true) else Child(lefts, p, false))
            else if q in lefts then Child(lefts, q, b)
            else Child(rights, q, b)
  {
    assert q != p ==> (q + [b])[|p|] == q[|p|];
    assert q == p ==> (q + [b])[|p|] == b;
  }

  lemma AboveStep(s: Store, path: Path, b: bool)
    ensures Above(s, path + [b]) == Longest(s, path)
  {
    assert (path + [b])[..|path|] == path;
  }

  class Tree {
    var root: Node
    ghost var nodes: map<Path, Node>

    /** The heap is the tree that `nodes` describes. */
    ghost predicate Linked()
      reads this, nodes.Values
    {
      && Shape(nodes) && nodes[[]] == root
      && (forall p {:trigger nodes[p].left} :: p in nodes ==> nodes[p].left == Child(nodes, p, false))
      && (forall p {:trigger nodes[p].right} :: p in nodes ==> nodes[p].right == Child(nodes, p, true))
      && (forall p {:trigger nodes[p].value} :: p in nodes && nodes[p].value.Some? ==>
            p != [] && nodes[p].value.value.Prefix() == p)
    }

    ghost function Stored(): Store
      reads this, nodes.Values
    {
      map p | p in nodes && nodes[p].value.Some? :: nodes[p].value.value
    }

    ghost predicate LeadsToNetwork(p: Path)
      reads this, nodes.Values
    {
      exists q :: q in Stored() && p <= q
    }

    /** Every node but the root is on the way to a stored network; so every leaf but the root holds one. */
    ghost predicate Valid()
      reads this, nodes.Values
    {
      Linked() && forall p {:trigger LeadsToNetwork(p)} :: p in nodes && p != [] ==> LeadsToNetwork(p)
    }

    constructor ()
      ensures Valid() && Stored() == map[] && fresh(nodes.Values)
    {
      hide *;
      root := new Node();
      nodes := map[[] := root];
      new;
      JustRoot();
    }

    lemma StepDown(p: Path, b: bool)
      requires Linked() && p in nodes
      ensures (if b then nodes[p].right else nodes[p].left) == if p + [b] in nodes then nodes[p + [b]] else null
    {
    }

    lemma RootNode()
      requires Linked()
      ensures [] in nodes && nodes[[]] == root && Found(Above(Stored(), [])) == NULL_NET
    {
    }

    lemma ValidIsLinked()
      requires Valid()
      ensures Linked()
    {
    }

    /** No node but one holds the value of a path. */
    lemma OnlyAt(path: Path)
      requires Linked() && path in nodes
      ensures forall p :: p in nodes && nodes[p] == nodes[path] ==> p == path
    {
    }

    lemma StoreIsKeyed()
      requires Linked()
      ensures Keyed(Stored())
    {
    }

    /** Where the existing tree ends on the way to the network. */
    method Walk(network: IPNet) returns (node: Node, next: Node?, bit: Word, i: nat, w: nat, ghost path: Path)
      requires Linked()
      ensures path in nodes && node == nodes[path] && path <= network.Prefix()
      ensures |path| < 128 ==> CursorAt(|path|, w, bit) && i == w
      ensures next != null ==> path == network.Prefix()
      ensures next == null ==> |path| < network.bits && network.Prefix()[..|path| + 1] !in nodes
    {
      hide *;
      RootNode();
      CursorStarts();
      node, next, bit, i, w, path := root, root, BitAt(0), 0, 0, [];
      var mask := NetMaskArray(network.bits);
      while NonZero(And(bit, mask[w]))
        invariant CursorAt(|path|, w, bit) && i == w < 2
        invariant path in nodes && node == nodes[path] && path <= network.Prefix()
        invariant next == node
        decreases 128 - |path|
      {
        CursorReads(network, |path|, w, bit);
        PrefixStep(network, path);
        ghost var step := network.Prefix()[..|path| + 1];
        StepDown(path, AddressBits(network.address)[|path|]);
        if NonZero(And(Ntohll(RawWord(network.address, w)), bit)) {
          next := node.right;
        } else {
          next := node.left;
        }
        if next == null {
          break;
        }
        var end;
        bit, i, w, end := Advance(network, bit, i, w, |path|);
        node, path := next, step;
        if end {
          break;
        }
      }
      if next != null && |path| < 128 {
        CursorReads(network, |path|, w, bit);
      }
    }

    /** Links a new node below the node at `path`. */
    method Extend(node: Node, b: bool, ghost path: Path) returns (next: Node)
      requires Linked() && path in nodes && node == nodes[path] && path + [b] !in nodes && |path| < 128
      modifies this`nodes, node`left, node`right
      ensures Linked() && fresh(next) && nodes == old(nodes)[path + [b] := next] && next.value == None
      ensures path + [b] + [false] !in nodes && path + [b] + [true] !in nodes
    {
      hide Shape, Child, IPNet.Prefix;
      RootNode();
      OnlyAt(path);
      ghost var before := nodes;
      next := new Node();
      assert next !in before.Values;
      ShapeGrows(before, path, b, next);
      if b {
        node.right := next;
      } else {
        node.left := next;
      }
      nodes := before[path + [b] := next];
    }

    twostate lemma AddedEmpty(step: Path, new next: Node)
      requires step !in old(nodes) && nodes == old(nodes)[step := next] && next.value == None
      requires forall p :: p in old(nodes) ==> nodes[p].value == old(nodes[p].value)
      ensures Stored() == old(Stored())
    {
    }

    /** One missing bit of a network becomes a new node. */
    method GrowOnce(network: IPNet, node: Node, b: bool, ghost path: Path, ghost first: map<Path, Node>)
      returns (next: Node)
      requires Linked() && path in nodes && node == nodes[path] && |path| < network.bits && path <= network.Prefix()
      requires path + [b] == network.Prefix()[..|path| + 1] && path + [b] !in nodes
      requires Grew(first, nodes, network.Prefix())
      modifies this`nodes, node`left, node`right
      ensures Linked() && Stored() == old(Stored()) && Grew(first, nodes, network.Prefix())
      ensures fresh(next) && nodes == old(nodes)[path + [b] := next] && path + [b] !in first
      ensures |path| + 1 < network.bits ==> network.Prefix()[..|path| + 2] !in nodes
    {
      hide *;
      ghost var step := path + [b];
      label Before:
      next := Extend(node, b, path);
      AddedEmpty@Before(step, next);
      GrewStep(first, old(nodes), network.Prefix(), step, next);
      if |step| < network.bits {
        PrefixStep(network, step);
        var c := AddressBits(network.address)[|step|];
        assert step + [c] == if c then step + [true] else step + [false];
      }
    }

    /** The second loop of an insertion: the missing bits become new nodes. */
    method Grow(network: IPNet, start: Node, firstBit: Word, i0: nat, w0: nat, ghost path0: Path) returns (node: Node)
      requires Linked() && path0 in nodes && start == nodes[path0] && path0 <= network.Prefix()
      requires |path0| < network.bits && network.Prefix()[..|path0| + 1] !in nodes
      requires CursorAt(|path0|, w0, firstBit) && i0 == w0
      modifies this`nodes, nodes.Values
      ensures Linked() && Stored() == old(Stored()) && Grew(old(nodes), nodes, network.Prefix())
      ensures fresh(nodes.Values - old(nodes.Values))
      ensures network.Prefix() in nodes && network.Prefix() !in old(nodes) && node == nodes[network.Prefix()]
    {
      hide *;
      CursorReads(network, |path0|, w0, firstBit);
      var mask := NetMaskArray(network.bits);
      node := start;
      var bit: Word, i: nat, w: nat := firstBit, i0, w0;
      ghost var path := path0;
      GrewNothing(nodes, network.Prefix());
      while NonZero(And(bit, mask[w]))
        invariant Linked() && Stored() == old(Stored()) && Grew(old(nodes), nodes, network.Prefix())
        invariant fresh(nodes.Values - old(nodes.Values))
        invariant CursorAt(|path|, w, bit) && i == w < 2
        invariant path in nodes && node == nodes[path] && path <= network.Prefix()
        invariant |path0| <= |path| <= network.bits
        invariant |path| < network.bits ==> network.Prefix()[..|path| + 1] !in nodes
        invariant if |path| == |path0| then |path| < network.bits else path !in old(nodes)
        decreases 128 - |path|
      {
        CursorReads(network, |path|, w, bit);
        PrefixStep(network, path);
        ghost var step := network.Prefix()[..|path| + 1];
        var right := NonZero(And(Ntohll(RawWord(network.address, w)), bit));
        assert step == path + [right];
        var next := GrowOnce(network, node, right, path, old(nodes));
        var end;
        bit, i, w, end := Advance(network, bit, i, w, |path|);
        node, path := next, step;
        if end {
          break;
        }
      }
      if |path| < 128 {
        CursorReads(network, |path|, w, bit);
      }
      assert path == network.Prefix();
    }

    /** Puts a network at its own, still empty node. */
    method Fill(node: Node, network: IPNet)
      requires Linked() && network.bits > 0 && network.Prefix() in nodes && node == nodes[network.Prefix()]
      modifies node`value
      ensures Linked() && Stored() == old(Stored())[network.Prefix() := network]
    {
      hide AddressBits, Shape, Child, IPNet.Prefix;
      OnlyAt(network.Prefix());
      node.value := Some(network);
    }

    twostate lemma StaysValid(target: Path)
      requires old(Valid()) && Linked() && Grew(old(nodes), nodes, target)
      requires target in Stored() && forall q :: q in old(Stored()) ==> q in Stored()
      ensures Valid()
    {
      hide AddressBits, Stored, Linked;
      forall p | p in nodes && p != [] ensures LeadsToNetwork(p) {
        if p in old(nodes) {
          assert old(LeadsToNetwork(p));
        }
      }
    }

    method Insert(network: IPNet) returns (inserted: bool)
      requires Valid()
      modifies this`nodes, nodes.Values
      ensures Valid() && Stored() == InsertInto(old(Stored()), network)
      ensures inserted <==> network.bits > 0 && network.Prefix() !in old(Stored())
      ensures fresh(nodes.Values - old(nodes.Values))
      ensures !inserted ==> nodes == old(nodes) && unchanged(old(nodes.Values))
    {
      hide *;
      ValidIsLinked();
      InsertedOrNot(Stored(), network);
      if network.IsNull() {
        return false;
      }
      if network.bits < 1 || network.bits > 128 {
        return false;
      }
      var node, next, bit, i, w;
      ghost var path;
      node, next, bit, i, w, path := Walk(network);
      InStored(path);
      if next != null {
        if node.value.Some? {
          return false;
        }
        Fill(node, network);
        GrewNothing(nodes, network.Prefix());
      } else {
        InStored(network.Prefix());
        node := Grow(network, node, bit, i, w, path);
        Fill(node, network);
      }
      StaysValid(network.Prefix());
      return true;
    }

    lemma InsertedOrNot(s: Store, n: IPNet)
      ensures n.IsNull() ==> n.bits == 0
      ensures n.bits <= 128
      ensures InsertInto(s, n) == if n.bits > 0 && n.Prefix() !in s then s[n.Prefix() := n] else s
    {
    }

    lemma InStored(p: Path)
      ensures p in Stored() <==> p in nodes && nodes[p].value.Some?
      ensures p in Stored() ==> nodes[p].value == Some(Stored()[p])
    {
    }

    lemma ParentIn(p: Path, b: bool)
      requires Linked() && p + [b] in nodes
      ensures p in nodes
    {
    }

    lemma {:induction false} NothingBelow(p: Path, r: Path)
      requires Linked() && p !in nodes && p <= r
      ensures r !in nodes
      decreases |r|
    {
      hide Linked;
      if |p| < |r| {
        var shorter, b := r[..|r| - 1], r[|r| - 1];
        NothingBelow(p, shorter);
        assert r == shorter + [b];
        if r in nodes {
          ParentIn(shorter, b);
        }
      } else {
        assert p == r;
      }
    }

    /** What the nodes above `path`, and the one at `path`, contribute to a lookup. */
    lemma StepUp(path: Path)
      requires Linked() && path in nodes
      ensures Longest(Stored(), path) ==
              if nodes[path].value.Some? then nodes[path].value
              else Above(Stored(), path)
      ensures Found(Longest(Stored(), path)) ==
              if nodes[path].value.Some? then nodes[path].value.value else Found(Above(Stored(), path))
    {
      InStored(path);
    }

    method Find(network: IPNet) returns (found: IPNet)
      requires Linked()
      ensures found == FindIn(Stored(), network)
    {
      hide AddressBits, Linked, Stored, NetOf;
      if network.IsNull() {
        return NULL_NET;
      }
      if network.bits == 0 {
        return NULL_NET;
      }
      var ret := Lookup(network);
      return if network.Family() == ret.Family() then ret else NULL_NET;
    }

    /** The loop of a lookup: the last value met on the way down the network's bits. */
    method Lookup(network: IPNet) returns (ret: IPNet)
      requires Linked() && network.bits > 0
      ensures ret == Found(Longest(Stored(), network.Prefix()))
    {
      hide *;
      RootNode();
      CursorStarts();
      var mask := NetMaskArray(network.bits);
      ret := NULL_NET;
      var node: Node? := root;
      var bit: Word, i: nat, w: nat := BitAt(0), 0, 0;
      ghost var path: Path := [];
      ghost var goal := network.Prefix();
      ghost var store := Stored();
      while node != null
        invariant path <= goal && |goal| == network.bits
        invariant CursorAt(|path|, w, bit) && i == w < 2
        invariant if path in nodes then node == nodes[path] else node == null
        invariant ret == Found(Above(store, path))
        decreases 128 - |path|, node != null
      {
        StepUp(path);
        if node.value.Some? {
          ret := node.value.value;
        }
        assert ret == Found(Longest(store, path));
        CursorReads(network, |path|, w, bit);
        StepDown(path, AddressBits(network.address)[|path|]);
        if NonZero(And(Ntohll(RawWord(network.address, w)), bit)) {
          node := node.right;
        } else {
          node := node.left;
        }
        if !NonZero(And(bit, mask[w])) {
          assert path == goal;
          return;
        }
        ghost var step := path + [AddressBits(network.address)[|path|]];
        PrefixStep(network, path);
        var end;
        bit, i, w, end := Advance(network, bit, i, w, |path|);
        AboveStep(store, path, AddressBits(network.address)[|path|]);
        path := step;
        if end {
          assert path == goal;
          if node != null {
            StepUp(path);
            if node.value.Some? {
              ret := node.value.value;
            }
          } else {
            LookupStops(path, goal);
          }
          return;
        }
      }
      LookupStops(path, goal);
    }

    lemma LookupStops(path: Path, goal: Path)
      requires Linked() && path !in nodes && path <= goal
      ensures Longest(Stored(), goal) == Above(Stored(), path)
    {
      forall r | path <= r ensures r !in Stored() {
        NothingBelow(path, r);
        InStored(r);
      }
      LongestStops(Stored(), path, goal);
    }

    lemma JustRoot()
      requires nodes == map[[] := root] && root.value == None && root.left == null && root.right == null
      ensures Valid() && Stored() == map[] == StoreOf([])
    {
    }

    /** A tree built from a list holds what the list inserts, in order; rejected networks are skipped. */
    constructor FromList(networks: seq<IPNet>)
      ensures Valid() && fresh(nodes.Values) && Stored() == StoreOf(networks)
    {
      hide *;
      root := new Node();
      nodes := map[[] := root];
      new;
      JustRoot();
      InsertAll(networks, []);
      assert [] + networks == networks;
    }

    /** Inserts in order after what `before` has inserted; rejected networks are skipped. */
    method InsertAll(networks: seq<IPNet>, ghost before: seq<IPNet>)
      requires Valid() && Stored() == StoreOf(before)
      modifies this`nodes, nodes.Values
      ensures Valid() && fresh(nodes.Values - old(nodes.Values)) && Stored() == StoreOf(before + networks)
    {
      hide *;
      ghost var all, n := before + networks, |before|;
      assert all[..n] == before;
      for k := 0 to |networks|
        invariant Valid() && fresh(nodes.Values - old(nodes.Values)) && Stored() == StoreOf(all[..n + k])
      {
        var _ := Insert(networks[k]);
        StoreOfStep(all, n + k);
      }
      assert all[..n + |networks|] == all;
    }

    /** The node at `p` of this tree, null where the tree has none. */
    ghost predicate At(node: Node?, p: Path)
      reads this
    {
      if p in nodes then node == nodes[p] else node == null
    }

    /** Some point at or below `p`, on the way to a network of `other`, is a hit. */
    ghost predicate HitsBelow(other: Tree, family: Family, p: Path)
      reads this, nodes.Values, other, other.nodes.Values
    {
      exists r :: r in other.nodes && p <= r && Hit(Stored(), other.Stored(), family, r)
    }

    lemma HitsBelowStep(other: Tree, family: Family, p: Path)
      requires p in other.nodes
      ensures HitsBelow(other, family, p) <==>
              || Hit(Stored(), other.Stored(), family, p)
              || HitsBelow(other, family, p + [false])
              || HitsBelow(other, family, p + [true])
    {
      hide Hit, Stored;
      forall r | r in other.nodes && p <= r && r != p ensures p + [false] <= r || p + [true] <= r {
        var b := r[|p|];
        assert r[..|p| + 1] == p + [b];
      }
    }

    /** A hit just above `p`, seen in the two networks carried down to `p`. */
    ghost predicate HitAbove(other: Tree, family: Family, p: Path)
      reads this, nodes.Values, other, other.nodes.Values
    {
      p != [] && Hit(Stored(), other.Stored(), family, p[..|p| - 1])
    }

    lemma HitAboveChild(other: Tree, family: Family, p: Path, b: bool)
      ensures HitAbove(other, family, p + [b]) <==> Hit(Stored(), other.Stored(), family, p)
      ensures Above(Stored(), p + [b]) == Longest(Stored(), p)
    {
      assert (p + [b])[..|p|] == p;
    }

    static method Matches(family: Family, containing: Option<IPNet>, contained: Option<IPNet>) returns (r: bool)
      ensures r <==> containing.Some? && contained.Some? && FamiliesMatch(family, containing.value, contained.value)
    {
      if containing.Some? && contained.Some? {
        if family == Unknown {
          if containing.value.Family() == contained.value.Family() {
            return true;
          }
        } else {
          if containing.value.Family() == family && contained.value.Family() == family {
            return true;
          }
        }
      }
      return false;
    }

    method IsSubsetUtil(other: Tree, family: Family, n1: Node?, n2: Node?,
                        above1: Option<IPNet>, above2: Option<IPNet>, ghost p: Path)
      returns (r: bool)
      requires Linked() && other.Linked() && At(n1, p) && other.At(n2, p)
      requires above1 == Above(Stored(), p) && above2 == Above(other.Stored(), p)
      ensures r <==> HitAbove(other, family, p) || HitsBelow(other, family, p)
      decreases 129 - |p|
    {
      hide *;
      var hit := Matches(family, above1, above2);
      SeenAbove(other, family, p);
      if hit {
        return true;
      }
      if n2 == null {
        NothingHitBelow(other, family, n2, p);
        return false;
      }
      var containing, contained := above1, above2;
      if n1 != null && n1.value.Some? {
        containing := n1.value;
      }
      if n2.value.Some? {
        contained := n2.value;
      }
      Descend(other, family, n1, n2, p);
      var left1, right1 := null, null;
      if n1 != null {
        left1, right1 := n1.left, n1.right;
      }
      r := IsSubsetUtil(other, family, left1, n2.left, containing, contained, p + [false]);
      if !r {
        r := IsSubsetUtil(other, family, right1, n2.right, containing, contained, p + [true]);
      }
    }

    lemma SeenAbove(other: Tree, family: Family, p: Path)
      ensures var above1, above2 := Above(Stored(), p), Above(other.Stored(), p);
              HitAbove(other, family, p) <==>
              above1.Some? && above2.Some? && FamiliesMatch(family, above1.value, above2.value)
    {
    }

    /** One step down in both trees. */
    lemma Descend(other: Tree, family: Family, n1: Node?, n2: Node, p: Path)
      requires Linked() && other.Linked() && At(n1, p) && other.At(n2, p)
      ensures |p| <= 128
      ensures At(if n1 == null then null else n1.left, p + [false])
      ensures At(if n1 == null then null else n1.right, p + [true])
      ensures other.At(n2.left, p + [false]) && other.At(n2.right, p + [true])
      ensures var best := if n1 != null && n1.value.Some? then n1.value else Above(Stored(), p);
              best == Above(Stored(), p + [false]) == Above(Stored(), p + [true])
      ensures var best := if n2.value.Some? then n2.value else Above(other.Stored(), p);
              best == Above(other.Stored(), p + [false]) == Above(other.Stored(), p + [true])
      ensures HitsBelow(other, family, p) <==>
              || HitAbove(other, family, p + [false]) || HitsBelow(other, family, p + [false])
              || HitAbove(other, family, p + [true]) || HitsBelow(other, family, p + [true])
    {
      assert |p| <= 128;
      hide Linked, Stored, HitsBelow, Hit, HitAbove, Shape;
      HitsBelowStep(other, family, p);
      BestAt(n1, p);
      other.BestAt(n2, p);
      ChildrenAt(n1, p);
      other.ChildrenAt(n2, p);
      HitAboveChild(other, family, p, false);
      HitAboveChild(other, family, p, true);
      other.HitAboveChild(other, family, p, false);
      other.HitAboveChild(other, family, p, true);
    }

    lemma ChildrenAt(node: Node?, p: Path)
      requires Linked() && At(node, p)
      ensures At(if node == null then null else node.left, p + [false])
      ensures At(if node == null then null else node.right, p + [true])
    {
      if node == null {
        NothingBelow(p, p + [false]);
        NothingBelow(p, p + [true]);
      }
    }

    /** The nearest network at or above `p`, whether or not the tree reaches down to `p`. */
    lemma BestAt(node: Node?, p: Path)
      requires Linked() && At(node, p)
      ensures Longest(Stored(), p) == if node != null && node.value.Some? then node.value else Above(Stored(), p)
    {
      if node != null {
        StepUp(p);
      } else {
        LookupStops(p, p);
      }
    }

    lemma NothingHitBelow(other: Tree, family: Family, n2: Node?, p: Path)
      requires other.Linked() && other.At(n2, p) && n2 == null
      ensures !HitsBelow(other, family, p)
    {
      forall r | p <= r ensures r !in other.nodes {
        other.NothingBelow(p, r);
      }
    }

    method IsAnyIPNetSubset(family: Family, other: Tree) returns (r: bool)
      requires Valid() && other.Valid()
      ensures r <==> WalkHits(Stored(), other.Stored(), family)
    {
      hide *;
      FromTheRoot(other, family);
      r := IsSubsetUtil(other, family, root, other.root, None, None, []);
      NodesAreThePrefixes(other, family);
    }

    lemma FromTheRoot(other: Tree, family: Family)
      requires Valid() && other.Valid()
      ensures Linked() && other.Linked() && At(root, []) && other.At(other.root, [])
      ensures Above(Stored(), []) == Above(other.Stored(), []) == None && !HitAbove(other, family, [])
    {
      hide Stored;
      ValidIsLinked();
      RootNode();
      other.ValidIsLinked();
      other.RootNode();
    }

    lemma NodesAreThePrefixes(other: Tree, family: Family)
      requires Linked() && other.Valid()
      ensures HitsBelow(other, family, []) <==> WalkHits(Stored(), other.Stored(), family)
    {
      hide Stored, AddressBits;
      var s1, s2 := Stored(), other.Stored();
      if HitsBelow(other, family, []) {
        var p :| p in other.nodes && [] <= p && Hit(s1, s2, family, p);
        StoreIsKeyed();
        assert other.LeadsToNetwork(p);
        var q :| q in s2 && p <= q;
        assert q[..|p|] == p;
      }
      if WalkHits(s1, s2, family) {
        var q, k :| q in s2 && 0 <= k <= |q| && Hit(s1, s2, family, q[..k]);
        other.InStored(q);
        if q[..k] !in other.nodes {
          other.NothingBelow(q[..k], q);
        }
      }
    }

    /** `copies` is a copy of everything at or below `p`. */
    ghost predicate Mirrors(copies: map<Path, Node>, p: Path)
      reads this, nodes.Values, copies.Values
    {
      && SameBelow(nodes, copies, p)
      && forall q {:trigger MirrorsAt(copies, q)} :: q in copies ==> q in nodes && MirrorsAt(copies, q)
    }

    ghost predicate MirrorsAt(copies: map<Path, Node>, q: Path)
      requires q in copies && q in nodes
      reads this, nodes.Values, copies.Values
    {
      && copies[q].value == nodes[q].value
      && copies[q].left == Child(copies, q, false)
      && copies[q].right == Child(copies, q, true)
    }

    lemma EmptyMirror(p: Path)
      requires Linked() && p !in nodes
      ensures Mirrors(map[], p)
    {
      forall q | p <= q ensures q !in nodes {
        NothingBelow(p, q);
      }
    }

    lemma JoinMirrors(lefts: map<Path, Node>, rights: map<Path, Node>, copy: Node, p: Path)
      requires Mirrors(lefts, p + [false]) && Mirrors(rights, p + [true]) && p in nodes
      requires Apart(lefts, rights, copy)
      requires copy.value == nodes[p].value
      requires copy.left == (if p + [false] in lefts then lefts[p + [false]] else null)
      requires copy.right == (if p + [true] in rights then rights[p + [true]] else null)
      ensures Mirrors(lefts + rights + map[p := copy], p)
    {
      var all := lefts + rights + map[p := copy];
      JoinBelow(nodes, lefts, rights, copy, p);
      assert copy.left == Child(lefts, p, false) && copy.right == Child(rights, p, true);
      hide SameBelow, Child;
      forall q | q in all ensures q in nodes && MirrorsAt(all, q) {
        ChildInJoin(lefts, rights, copy, p, q, false);
        ChildInJoin(lefts, rights, copy, p, q, true);
        if q in lefts {
          assert MirrorsAt(lefts, q) && q !in rights && q != p;
        } else if q in rights {
          assert MirrorsAt(rights, q) && q != p;
        }
      }
    }

    lemma ChildrenOf(p: Path)
      requires Linked() && p in nodes
      ensures |p| <= 128 && At(nodes[p].left, p + [false]) && At(nodes[p].right, p + [true])
    {
      ChildrenAt(nodes[p], p);
    }

    /** The copy constructor of a node: its value and, recursively, its children. */
    method CopyNode(node: Node, ghost p: Path) returns (copy: Node, ghost copies: map<Path, Node>)
      requires Linked() && p in nodes && node == nodes[p]
      ensures Mirrors(copies, p) && p in copies && copy == copies[p]
      ensures forall q :: q in copies ==> fresh(copies[q])
      decreases 129 - |p|, 0
    {
      hide Linked, Mirrors, At;
      ChildrenOf(p);
      var left, right;
      ghost var lefts, rights;
      left, lefts := CopyChild(node.left, p + [false]);
      right, rights := CopyChild(node.right, p + [true]);
      copy := new Node.With(node.value, left, right);
      copies := lefts + rights + map[p := copy];
      assert Apart(lefts, rights, copy);
      JoinMirrors(lefts, rights, copy, p);
    }

    method CopyChild(child: Node?, ghost p: Path) returns (copy: Node?, ghost copies: map<Path, Node>)
      requires Linked() && At(child, p) && |p| <= 129
      ensures Mirrors(copies, p) && copy == if p in copies then copies[p] else null
      ensures forall q :: q in copies ==> fresh(copies[q])
      decreases 129 - |p|, 1
    {
      if child != null {
        copy, copies := CopyNode(child, p);
      } else {
        copy, copies := null, map[];
        EmptyMirror(p);
      }
    }

    /** A copied tree holds the same networks and shares no node with the original. */
    constructor CopyOf(other: Tree)
      requires other.Valid()
      ensures Valid() && fresh(nodes.Values) && Stored() == other.Stored()
    {
      hide *;
      var copy;
      ghost var copies;
      other.ValidIsLinked();
      other.RootNode();
      copy, copies := other.CopyNode(other.root, []);
      root, nodes := copy, copies;
      new;
      MirrorIsTree(other);
    }

    lemma MirrorIsLinked(other: Tree)
      requires other.Linked() && other.Mirrors(nodes, []) && [] in nodes && root == nodes[[]]
      ensures Linked() && Stored() == other.Stored() && nodes.Keys == other.nodes.Keys
    {
      hide IPNet.Prefix, AddressBits;
      forall q | q in nodes ensures q in other.nodes && other.MirrorsAt(nodes, q) {
      }
      assert nodes.Keys == other.nodes.Keys;
    }

    lemma MirrorIsTree(other: Tree)
      requires other.Valid() && other.Mirrors(nodes, []) && [] in nodes && root == nodes[[]]
      ensures Valid() && Stored() == other.Stored()
    {
      hide Linked, Stored, Mirrors;
      MirrorIsLinked(other);
      forall p | p in nodes && p != [] ensures LeadsToNetwork(p) {
        assert other.LeadsToNetwork(p);
      }
    }
  }
}
