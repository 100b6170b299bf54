/** The trie itself: a root edge, lookup, insertion and removal. */
module TrieClass {
  import opened Bits
  import opened TrieModel
  import opened TrieHeap

  /** 'stack' holds the nodes whose edges 'path' takes. */
  ghost predicate StackIs(sk: Skel, path: seq<bool>, stack: seq<TrieNode>)
    decreases path
  {
    && |stack| == |path|
    && (path != [] ==> sk.Cell? && stack[0] == sk.node && StackIs(sk.Sub(path[0]), path[1..], stack[1..]))
  }

  lemma {:induction false} StackPush(sk: Skel, path: seq<bool>, stack: seq<TrieNode>, b: bool)
    requires StackIs(sk, path, stack) && SkAt(sk, path).Cell?
    ensures StackIs(sk, path + [b], stack + [SkAt(sk, path).node])
    decreases path
  {
    var node := SkAt(sk, path).node;
    if path == [] {
      assert (path + [b])[1..] == [] && (stack + [node])[1..] == [];
    } else {
      SnocTail(path, b);
      assert (stack + [node])[1..] == stack[1..] + [node];
      StackPush(sk.Sub(path[0]), path[1..], stack[1..], b);
    }
  }

  lemma {:induction false} StackNodes(sk: Skel, path: seq<bool>, stack: seq<TrieNode>)
    requires StackIs(sk, path, stack)
    ensures forall o :: o in stack ==> o in Nodes(sk)
    decreases path
  {
    if path != [] {
      StackNodes(sk.Sub(path[0]), path[1..], stack[1..]);
      assert stack == [stack[0]] + stack[1..];
    }
  }

  lemma {:induction false} StackTop(sk: Skel, path: seq<bool>, stack: seq<TrieNode>)
    requires StackIs(sk, path, stack) && path != []
    ensures |stack| == |path| && SkHas(sk, path) && stack[|path| - 1] == SkParent(sk, path)
    decreases path
  {
    if |path| == 1 {
      assert path[1..] == [];
    } else {
      StackTop(sk.Sub(path[0]), path[1..], stack[1..]);
    }
  }

  /** Where the walk for 'key' stands: 'path' taken, 'ofs' bits used, at 'node'. */
  ghost predicate Stands(m: Mem, sk: Skel, key: Bits, path: seq<bool>, ofs: nat, node: TrieNode?) {
    && Follows(Abs(m, sk), path, key) && SkHas(sk, path)
    && ofs < |key| && Rest(Abs(m, sk), path, key) == key[ofs..]
    && Linked(m, node, SkAt(sk, path))
    && Abs(m, SkAt(sk, path)) == At(Abs(m, sk), path)
  }

  lemma StandsRoot(m: Mem, sk: Skel, key: Bits, node: TrieNode?)
    requires Linked(m, node, sk) && key != []
    ensures Stands(m, sk, key, [], 0, node) && StackIs(sk, [], [])
  {
  }

  lemma StandsNext(m: Mem, sk: Skel, key: Bits, path: seq<bool>, ofs: nat, node: TrieNode)
    requires Stands(m, sk, key, path, ofs, node) && ofs + m[node].nbits < |key|
    requires m[node].prefix[..m[node].nbits] <= key[ofs..]
    ensures var b := key[ofs + m[node].nbits];
            Stands(m, sk, key, path + [b], ofs + m[node].nbits, m[node].Edge(b))
  {
    var n := m[node].nbits;
    assert At(Abs(m, sk), path).bits == m[node].prefix[..n];
    FollowsExtend(Abs(m, sk), path, key, key[ofs + n]);
    SkExtend(sk, path, key[ofs + n]);
    assert key[ofs..][n..] == key[ofs + n..];
  }

  lemma WalkStep(m: Mem, sk: Skel, key: Bits, path: seq<bool>, stack: seq<TrieNode>, ofs: nat, node: TrieNode, b: bool)
    requires Stands(m, sk, key, path, ofs, node) && StackIs(sk, path, stack)
    requires ofs + m[node].nbits < |key| && m[node].nbits == Common(m[node].prefix[..m[node].nbits], key[ofs..])
    requires b == key[ofs + m[node].nbits]
    ensures Stands(m, sk, key, path + [b], ofs + m[node].nbits, m[node].Edge(b))
    ensures StackIs(sk, path + [b], stack + [node])
    ensures SkAt(sk, path).Cell? && SkAt(sk, path + [b]) == SkAt(sk, path).Sub(b)
  {
    StandsNext(m, sk, key, path, ofs, node);
    StackPush(sk, path, stack, b);
    SkExtend(sk, path, b);
  }

  lemma StandsRoom(m: Mem, sk: Skel, key: Bits, path: seq<bool>, ofs: nat, node: TrieNode, width: nat)
    requires Stands(m, sk, key, path, ofs, node) && |key| <= width && Shape(Abs(m, sk), width)
    ensures node in m && m[node].WordOk() && ofs < |key| && ofs + m[node].nbits <= width
    ensures path != [] ==> 0 < m[node].nbits
  {
    ShapeAt(Abs(m, sk), path, key, width);
  }

  /** What holds of the subtree that the walk stands at, and around it. */
  lemma Standing(m: Mem, sk: Skel, key: Bits, path: seq<bool>, ofs: nat, node: TrieNode?, width: nat)
    requires Stands(m, sk, key, path, ofs, node) && |key| <= width
    requires Shape(Abs(m, sk), width) && Live(Abs(m, sk))
    ensures var u := At(Abs(m, sk), path);
            && u == Abs(m, SkAt(sk, path)) && Shape(u, width - ofs) && Live(u) && LiveAround(Abs(m, sk), path)
            && (node == null ==> u.Nil?)
            && (node != null ==> SkAt(sk, path).Cell? && SkAt(sk, path).node == node && node in m && m[node].WordOk()
                                 && u == Node(m[node].prefix[..m[node].nbits], m[node].nRules, u.e0, u.e1))
            && (path != [] ==> FitsEdge(u, path[|path| - 1]) && key[ofs] == path[|path| - 1])
  {
    hide Shape, Live, Follows, FitsEdge, LiveAround, SkAt, At, Rest;
    ShapeAt(Abs(m, sk), path, key, width);
    LiveSplit(Abs(m, sk), path, key);
  }

  lemma SplitReady(m: Mem, sk: Skel, key: Bits, path: seq<bool>, ofs: nat, node: TrieNode, width: nat)
    requires Stands(m, sk, key, path, ofs, node) && |key| <= width
    requires Shape(Abs(m, sk), width) && Live(Abs(m, sk))
    requires Common(m[node].prefix[..m[node].nbits], key[ofs..]) < m[node].nbits
    ensures var u, rest := At(Abs(m, sk), path), key[ofs..];
            && u == Abs(m, SkAt(sk, path)) && u.Node? && u.bits == m[node].prefix[..m[node].nbits]
            && LiveAround(Abs(m, sk), path)
            && var s := Split(u, rest, Common(u.bits, rest));
               && s.Node? && Shape(s, width - ofs) && Live(s) && Delta(u, s, rest, 1)
               && (path != [] ==> FitsEdge(s, path[|path| - 1]))
  {
    hide Linked, Shape, Live, Delta, Follows, Rest, Count, Common, Abs, At, Split, SkAt, FitsEdge;
    Standing(m, sk, key, path, ofs, node, width);
    var u, rest := At(Abs(m, sk), path), key[ofs..];
    SplitIsInsertion(u, rest, Common(u.bits, rest), width - ofs);
    if path != [] { SplitFits(u, rest, path[|path| - 1]); }
  }

  lemma CellNode(m: Mem, node: TrieNode, sk: Skel)
    requires Linked(m, node, sk)
    ensures sk.Cell? && sk.node == node && node in Nodes(sk) && node in m && m[node].WordOk()
    ensures Abs(m, sk).Node? && Abs(m, sk).bits == m[node].prefix[..m[node].nbits] && Abs(m, sk).nRules == m[node].nRules
  {
  }

  lemma EqualBitsInKey(bits: Bits, prefix: Bits, ofs: nat, mlen: nat)
    requires ofs <= mlen <= |prefix|
    ensures var n := if |bits| < mlen - ofs then |bits| else mlen - ofs;
            Common(bits[..n], prefix[ofs..]) == Common(bits, prefix[..mlen][ofs..])
  {
    var n := if |bits| < mlen - ofs then |bits| else mlen - ofs;
    hide Common;
    var key := prefix[..mlen][ofs..];
    forall i | 0 <= i < |key| ensures key[i] == prefix[ofs..][i] {}
    CommonUnique(bits, key, Common(bits[..n], prefix[ofs..]));
  }

  /** `trie_prefix_equal_bits`. */
  function NodeEqualBits(node: TrieNode, prefix: Bits, ofs: nat, mlen: nat): (eqbits: nat)
    requires IsValue(prefix) && ofs < mlen <= |prefix| && ofs + node.nbits <= |prefix| && node.Val().WordOk()
    reads node
    ensures eqbits == Common(node.prefix[..node.nbits], prefix[..mlen][ofs..])
  {
    var n := if node.nbits < mlen - ofs then node.nbits else mlen - ofs;
    EqualBitsInKey(node.prefix[..node.nbits], prefix, ofs, mlen);
    assert node.prefix[..node.nbits][..n] == node.prefix[..n];
    PrefixEqualBits(node.prefix, n, prefix, ofs)
  }

  /** The tree stores exactly the bag 'bag' of prefixes. */
  ghost predicate Stores(t: Tree, bag: multiset<Bits>) {
    forall k :: Count(t, k) == bag[k]
  }

  lemma StoresMore(t: Tree, t': Tree, bag: multiset<Bits>, key: Bits)
    requires Stores(t, bag)
    ensures Delta(t, t', key, 1) ==> Stores(t', bag + multiset{key})
    ensures Delta(t, t', key, -1) ==> key in bag && Stores(t', bag - multiset{key})
  {
    hide Count;
    if Delta(t, t', key, -1) { assert Count(t', key) == Count(t, key) - 1; }
  }

  class Trie {
    const width: nat
    var root: TrieNode?
    ghost var skel: Skel
    ghost var repr: set<TrieNode>
    ghost var prefixes: multiset<Bits>

    ghost function Contents(): Mem
      reads this, repr
    {
      Snap(repr)
    }

    ghost function Value(): Tree
      reads this, repr
    {
      Abs(Contents(), skel)
    }

    /** The nodes are a well-shaped tree without dead leaves that stores 'prefixes'. */
    ghost predicate Valid()
      reads this, repr
    {
      && 0 < width && width % 32 == 0
      && repr == Nodes(skel) && Linked(Contents(), root, skel)
      && Shape(Value(), width) && Live(Value())
      && Stores(Value(), prefixes)
    }

    constructor (width: nat)
      requires 0 < width && width % 32 == 0
      ensures Valid() && this.width == width && prefixes == multiset{} && repr == {}
    {
      this.width, root, skel, repr, prefixes := width, null, End, {}, multiset{};
    }

    /** The walk of `trie_insert` and `trie_remove`: down to where 'prefix' leaves the tree. */
    method Walk(prefix: Bits, mlen: nat) returns (path: seq<bool>, stack: seq<TrieNode>, node: TrieNode?, ofs: nat, eqbits: nat)
      requires Valid() && IsValue(prefix) && |prefix| == width && 0 < mlen <= width
      ensures StackIs(skel, path, stack)
      ensures Stands(Contents(), skel, prefix[..mlen], path, ofs, node)
      ensures node != null ==>
                && node in repr && node.Val().WordOk() && ofs + node.nbits <= width
                && eqbits == Common(node.prefix[..node.nbits], prefix[..mlen][ofs..])
                && (eqbits < node.nbits || ofs + eqbits == mlen)
    {
      hide Linked, Shape, Live, Stores, Abs, NodeEqualBits, PrefixEqualBits, Stands, StackIs, SkAt, Nodes, Common;
      path, stack, node, ofs, eqbits := [], [], root, 0, 0;
      ghost var key, m := prefix[..mlen], Contents();
      StandsRoot(m, skel, key, root);
      while node != null
        invariant m == Contents() && StackIs(skel, path, stack)
        invariant Stands(m, skel, key, path, ofs, node)
        decreases SkAt(skel, path)
      {
        StandsRoom(m, skel, key, path, ofs, node, width);
        assert m[node] == node.Val();
        eqbits := NodeEqualBits(node, prefix, ofs, mlen);
        if eqbits < node.nbits || ofs + eqbits == mlen {
          return;
        }
        var b := prefix[ofs + eqbits];
        assert m[node].Edge(b) == node.Edge(b) && m[node].nbits == eqbits;
        WalkStep(m, skel, key, path, stack, ofs, node, b);
        path, stack, node, ofs := path + [b], stack + [node], node.Edge(b), ofs + eqbits;
      }
    }

    /** What the nodes of 'sub' stand for now. */
    ghost function Now(sub: Skel): Tree
      reads Nodes(sub)
    {
      Abs(Snap(Nodes(sub)), sub)
    }

    /**
     Stores 'edge', which leads to the nodes in 'sub', into the edge at the end of
     'path'.  'm' is what the nodes held before the update began.
     */
    method Replace(ghost m: Mem, path: seq<bool>, stack: seq<TrieNode>, edge: TrieNode?, ghost sub: Skel, ghost key: Bits, ghost d: int)
      requires repr == Nodes(skel) && Linked(m, root, skel) && Shape(Abs(m, skel), width) && |key| <= width
      requires StackIs(skel, path, stack) && SkHas(skel, path) && Follows(Abs(m, skel), path, key)
      requires forall o :: o in repr && o !in Nodes(SkAt(skel, path)) ==> o in m && m[o] == o.Val()
      requires Linked(Snap(Nodes(sub)), edge, sub)
      requires forall o :: o in Nodes(sub) && o in Nodes(skel) ==> o in Nodes(SkAt(skel, path))
      requires Shape(Now(sub), width - |key| + |Rest(Abs(m, skel), path, key)|)
      requires Delta(At(Abs(m, skel), path), Now(sub), Rest(Abs(m, skel), path, key), d)
      requires path != [] ==> FitsEdge(Now(sub), path[|path| - 1])
      modifies this`root, this`skel, this`repr, stack
      ensures skel == SkPlug(old(skel), path, sub)
      ensures repr == Nodes(skel) == old(repr) - Nodes(SkAt(old(skel), path)) + Nodes(sub)
      ensures Linked(Contents(), root, skel) && Value() == Plug(Abs(m, old(skel)), path, old(Now(sub)))
      ensures Shape(Value(), width) && Delta(Abs(m, old(skel)), Value(), key, d)
    {
      hide Linked, Shape, Abs, Delta, Follows, Rest, At, FitsEdge, Nodes, SkAt;
      NodesPlug(m, root, skel, path, sub);
      LinkedAt(m, root, skel, path);
      ghost var was, before := Snap(Nodes(sub)), skel;
      ghost var n := root;
      if path == [] {
        root := edge;
      } else {
        StackTop(skel, path, stack);
        stack[|path| - 1].SetEdge(path[|path| - 1], edge);
      }
      skel, repr := SkPlug(skel, path, sub), repr - Nodes(SkAt(skel, path)) + Nodes(sub);
      AbsFrame(was, Contents(), edge, sub);
      PlugIsUpdate(m, Contents(), n, before, path, edge, sub, key, width, d);
    }

    /** The nodes form a well-shaped live tree that stores 'key' 'd' times more than 'was'. */
    ghost predicate Updated(was: Tree, key: Bits, d: int)
      reads this, repr
    {
      repr == Nodes(skel) && Linked(Contents(), root, skel) && Shape(Value(), width) && Live(Value()) && Delta(was, Value(), key, d)
    }

    /** `trie_insert` off the end of the tree. */
    method InsertBranch(prefix: Bits, mlen: nat, path: seq<bool>, stack: seq<TrieNode>, ofs: nat)
      requires Valid() && IsValue(prefix) && |prefix| == width && 0 < mlen <= width
      requires StackIs(skel, path, stack) && Stands(Contents(), skel, prefix[..mlen], path, ofs, null)
      modifies this`root, this`skel, this`repr, stack
      ensures Updated(old(Value()), prefix[..mlen], 1) && fresh(repr - old(repr))
    {
      hide Linked, Shape, Live, Delta, Follows, Rest, Count, StackIs, Abs, At, Branch, SkAt, Nodes;
      ghost var key, m, t := prefix[..mlen], Contents(), Value();
      Standing(m, skel, key, path, ofs, null, width);
      var branch, sk := BranchCreate(prefix, ofs, mlen - ofs, 1);
      assert prefix[ofs..ofs + (mlen - ofs)] == key[ofs..];
      BranchIsChain(key[ofs..], width - ofs);
      Replace(m, path, stack, branch, sk, key, 1);
      LivePlug(t, path, Branch(key[ofs..], 1));
    }

    /** `trie_insert` at a node that 'prefix' leaves or ends in 'eqbits' bits down. */
    method InsertSplit(prefix: Bits, mlen: nat, path: seq<bool>, stack: seq<TrieNode>, ofs: nat, node: TrieNode, eqbits: nat)
      requires Valid() && IsValue(prefix) && |prefix| == width && 0 < mlen <= width
      requires StackIs(skel, path, stack) && Stands(Contents(), skel, prefix[..mlen], path, ofs, node)
      requires node in repr && node.Val().WordOk() && eqbits < node.nbits
      requires eqbits == Common(node.prefix[..node.nbits], prefix[..mlen][ofs..])
      modifies this`root, this`skel, this`repr, stack, node
      ensures Updated(old(Value()), prefix[..mlen], 1) && fresh(repr - old(repr))
    {
      hide Linked, Shape, Live, Delta, Follows, Rest, Count, StackIs, Common, Abs, At, Split, SkAt, Nodes, FitsEdge;
      ghost var key, m, t, u, sk := prefix[..mlen], Contents(), Value(), At(Value(), path), SkAt(skel, path);
      SplitReady(m, skel, key, path, ofs, node, width);
      assert m[node] == node.Val();
      ghost var nodes := set o | o in repr && o in Nodes(sk);
      assert nodes == Nodes(sk);
      AbsFrame(m, Snap(nodes), node, sk);
      var top, all := SplitNode(prefix, mlen, ofs, node, eqbits, sk, nodes);
      Replace(m, path, stack, top, all, key, 1);
      LivePlug(t, path, Split(u, key[ofs..], eqbits));
    }

    /** `trie_insert` and `trie_remove` at the node that 'prefix' ends in: 'd' more rules there. */
    method Recount(prefix: Bits, mlen: nat, path: seq<bool>, stack: seq<TrieNode>, ofs: nat, node: TrieNode, d: int)
      requires Valid() && IsValue(prefix) && |prefix| == width && 0 < mlen <= width
      requires StackIs(skel, path, stack) && Stands(Contents(), skel, prefix[..mlen], path, ofs, node)
      requires node in repr && node.Val().WordOk() && node.prefix[..node.nbits] == prefix[..mlen][ofs..]
      requires node.nRules + d >= 0
      modifies node
      ensures node.nRules == old(node.nRules) + d
      ensures Linked(Contents(), root, skel) && Shape(Value(), width) && Delta(old(Value()), Value(), prefix[..mlen], d)
      ensures Stands(Contents(), skel, prefix[..mlen], path, ofs, node)
      ensures LiveAround(Value(), path) && At(Value(), path).Node? && Live(At(Value(), path).e0) && Live(At(Value(), path).e1)
      ensures node.nRules > 0 ==> Live(Value())
    {
      hide Linked, Shape, Live, Delta, Follows, Rest, Count, Abs, At, SkAt, Nodes, FitsEdge, SkHas, LiveAround, Stands, StackIs;
      ghost var key, m := prefix[..mlen], Contents();
      node.nRules := node.nRules + d;
      RecountCell(m, Contents(), root, skel, key, path, ofs, node, width, d);
    }

    /** `trie_insert`: stores the first 'mlen' bits of 'prefix' once more. */
    method Insert(prefix: Bits, mlen: nat)
      requires Valid() && IsValue(prefix) && |prefix| == width && 0 < mlen <= width
      modifies this, repr
      ensures Valid() && prefixes == old(prefixes) + multiset{prefix[..mlen]}
      ensures fresh(repr - old(repr))
    {
      hide Linked, Shape, Live, Follows, Rest, Abs, At, SkAt, Nodes, FitsEdge, SkHas, LiveAround, Stands, Common, Count, Delta, Stores, StackIs;
      ghost var t := Value();
      var path, stack, node, ofs, eqbits := Walk(prefix, mlen);
      StackNodes(skel, path, stack);
      if node == null {
        InsertBranch(prefix, mlen, path, stack, ofs);
      } else if eqbits < node.nbits {
        InsertSplit(prefix, mlen, path, stack, ofs, node, eqbits);
      } else {
        Recount(prefix, mlen, path, stack, ofs, node, 1);
      }
      StoresMore(t, Value(), prefixes, prefix[..mlen]);
      prefixes := prefixes + multiset{prefix[..mlen]};
    }

    /** One turn of the pruning loop of `trie_remove`, at the node at the end of 'path'. */
    method PruneStep(path: seq<bool>, stack: seq<TrieNode>, node: TrieNode, ghost key: Bits, ghost was: Tree) returns (stop: bool)
      requires repr == Nodes(skel) && Linked(Contents(), root, skel) && Shape(Value(), width) && |key| <= width
      requires Delta(was, Value(), key, -1) && StackIs(skel, path, stack) && Pruning(Contents(), skel, key, path, node)
      requires node.nRules == 0 && (node.edge0 == null || node.edge1 == null)
      modifies this`root, this`skel, this`repr, repr
      ensures repr <= old(repr) && repr == Nodes(skel) && Linked(Contents(), root, skel)
      ensures Shape(Value(), width) && Delta(was, Value(), key, -1)
      ensures stop ==> Live(Value())
      ensures !stop ==> |stack| == |path| > 0 && stack[|path| - 1] in repr
      ensures !stop ==> StackIs(skel, path[..|path| - 1], stack[..|path| - 1])
      ensures !stop ==> Pruning(Contents(), skel, key, path[..|path| - 1], stack[|path| - 1])
    {
      hide Linked, Shape, Live, Delta, Follows, Rest, Abs, At, SkAt, Nodes, FitsEdge, SkHas, LiveAround, Pruning, StackIs, Count;
      ghost var m, t, sk, u := Contents(), Value(), SkAt(skel, path), At(Value(), path);
      PruningReady(m, root, skel, key, path, node, width);
      StackNodes(skel, path, stack);
      var next := if node.edge0 != null then node.edge0 else node.edge1;
      stop := true;
      if next == null {
        PruneLeaf(m, path, stack, node, key, was);
        stop := path == [];
      } else {
        ghost var side := node.edge0 == null;
        CellNode(m, next, sk.Sub(side));
        if node.nbits + next.nbits > TRIE_PREFIX_BITS {
          LiveJoin(t, path, key);
          return;
        }
        PruneMerge(m, path, stack, node, next, side, key, was);
      }
    }

    /** The node to prune has no child left: its edge becomes null. */
    method PruneLeaf(ghost m: Mem, path: seq<bool>, stack: seq<TrieNode>, node: TrieNode, ghost key: Bits, ghost was: Tree)
      requires m == Contents()
      requires repr == Nodes(skel) && Linked(m, root, skel) && Shape(Value(), width) && |key| <= width
      requires Delta(was, Value(), key, -1) && StackIs(skel, path, stack) && Pruning(m, skel, key, path, node)
      requires node.nRules == 0 && node.edge0 == null && node.edge1 == null
      modifies this`root, this`skel, this`repr, stack
      ensures repr <= old(repr) && repr == Nodes(skel) && Linked(Contents(), root, skel)
      ensures Shape(Value(), width) && Delta(was, Value(), key, -1)
      ensures path == [] ==> Live(Value())
      ensures path != [] ==> |stack| == |path| && stack[|path| - 1] in repr
      ensures path != [] ==> StackIs(skel, path[..|path| - 1], stack[..|path| - 1])
      ensures path != [] ==> Pruning(Contents(), skel, key, path[..|path| - 1], stack[|path| - 1])
    {
      hide Linked, Shape, Live, Delta, Follows, Rest, Abs, At, SkAt, Nodes, FitsEdge, SkHas, LiveAround, Pruning, StackIs, Count, Plug, SkPlug;
      ghost var t, before := Value(), skel;
      PruningReady(m, root, skel, key, path, node, width);
      NullTree();
      Replace(m, path, stack, null, End, key, 0);
      DeltaTrans(was, t, Value(), key, -1);
      if path == [] {
        PlugRoot(t);
      } else {
        PruneParent(m, Contents(), root, before, skel, key, path, stack);
      }
    }

    /** The node to prune has one child, which takes over its bits and its edge. */
    method PruneMerge(ghost m: Mem, path: seq<bool>, stack: seq<TrieNode>, node: TrieNode, next: TrieNode, ghost side: bool, ghost key: Bits, ghost was: Tree)
      requires m == Contents()
      requires repr == Nodes(skel) && Linked(m, root, skel) && Shape(Value(), width) && |key| <= width
      requires Delta(was, Value(), key, -1) && StackIs(skel, path, stack) && Pruning(m, skel, key, path, node)
      requires node.nRules == 0 && node in repr && next == node.Edge(side) && node.Edge(!side) == null
      requires next in repr && node.nbits + next.nbits <= TRIE_PREFIX_BITS
      modifies this`root, this`skel, this`repr, stack, next
      ensures repr <= old(repr) && repr == Nodes(skel) && Linked(Contents(), root, skel)
      ensures Shape(Value(), width) && Delta(was, Value(), key, -1) && Live(Value())
    {
      hide Linked, Shape, Live, Delta, Follows, Rest, Abs, At, SkAt, Nodes, FitsEdge, SkHas, LiveAround, Pruning, StackIs, Count, Plug, SkPlug;
      ghost var t, u := Value(), At(Value(), path);
      PruningReady(m, root, skel, key, path, node, width);
      ghost var sub := SkAt(skel, path).Sub(side);
      ghost var nodes := set o | o in repr && o in Nodes(sub);
      assert nodes == Nodes(sub);
      AbsFrame(m, Snap(nodes), next, sub);
      CellNode(m, next, sub);
      MergeNode(node, next, sub, nodes);
      Replace(m, path, stack, next, sub, key, 0);
      DeltaTrans(was, t, Value(), key, -1);
      LivePlug(t, path, Prune(u));
    }

    /** `trie_remove`: takes one copy of the first 'mlen' bits of 'prefix' away, if there is one. */
    method Remove(prefix: Bits, mlen: nat) returns (found: bool)
      requires Valid() && IsValue(prefix) && |prefix| == width && 0 < mlen <= width
      modifies this, repr
      ensures Valid() && prefixes == old(prefixes) - multiset{prefix[..mlen]}
      ensures found == (prefix[..mlen] in old(prefixes)) && repr <= old(repr)
    {
      hide Linked, Shape, Live, Follows, Rest, Abs, At, SkAt, Nodes, FitsEdge, SkHas, LiveAround, Stands, Common, Count, Delta, Stores, StackIs, Pruning;
      ghost var t, key := Value(), prefix[..mlen];
      var path, stack, node, ofs, eqbits := Walk(prefix, mlen);
      if node == null || eqbits < node.nbits || node.nRules == 0 {
        NotStored(Contents(), skel, key, path, ofs, node, prefixes);
        return false;
      }
      found := true;
      TakeAway(prefix, mlen, path, stack, ofs, node);
      StoresMore(t, Value(), prefixes, key);
      prefixes := prefixes - multiset{key};
    }

    /** The end of `trie_remove`: one rule less at the node, then pruning. */
    method TakeAway(prefix: Bits, mlen: nat, path: seq<bool>, stack: seq<TrieNode>, ofs: nat, node: TrieNode)
      requires Valid() && IsValue(prefix) && |prefix| == width && 0 < mlen <= width
      requires StackIs(skel, path, stack) && Stands(Contents(), skel, prefix[..mlen], path, ofs, node)
      requires node in repr && node.Val().WordOk() && node.prefix[..node.nbits] == prefix[..mlen][ofs..] && node.nRules > 0
      modifies this`root, this`skel, this`repr, repr
      ensures Updated(old(Value()), prefix[..mlen], -1) && repr <= old(repr)
    {
      hide Linked, Shape, Live, Follows, Rest, Abs, At, SkAt, Nodes, FitsEdge, SkHas, LiveAround, Stands, Common, Count, Delta, Stores, StackIs, Pruning;
      ghost var t, key := Value(), prefix[..mlen];
      StackNodes(skel, path, stack);
      Recount(prefix, mlen, path, stack, ofs, node, -1);
      PruningStart(Contents(), skel, key, path, ofs, node);
      PruneUpwards(path, stack, node, key, t);
    }

    /**
     `trie_lookup_value`.  Past the last bit of the field there is no edge to follow:
     by the shape invariant both edges of a node that deep are null.
     */
    method LookupValue(value: Bits) returns (matchLen: nat, checkbits: nat)
      requires Valid() && IsValue(value) && |value| == width
      ensures (matchLen, checkbits) == Lookup(Value(), value)
    {
      hide Linked, Shape, Live, Abs, Stores, Lookup, Common, PrefixEqualBits, Nodes, Searching, Resume;
      var plen: nat, prev: TrieNode?, node := 0, null, root;
      matchLen := 0;
      ghost var m, cur, dead: nat := Contents(), skel, 0;
      SearchStart(m, skel, value, root);
      while node != null
        invariant m == Contents() && Searching(m, skel, value, plen, matchLen, dead, node, cur)
        invariant prev != null ==> prev in repr
        invariant dead == if prev == null || (prev.edge0 == null && prev.edge1 == null) then plen else plen + 1
        decreases Nodes(cur)
      {
        SearchNode(m, skel, value, plen, matchLen, dead, node, cur);
        assert m[node] == node.Val();
        var eqbits := PrefixEqualBits(node.prefix, node.nbits, value, plen);
        if eqbits < node.nbits {
          checkbits := plen + eqbits + 1;
          return;
        }
        SearchStep(m, skel, value, plen, matchLen, dead, node, cur);
        plen := plen + eqbits;
        if node.nRules > 0 { matchLen := plen; }
        dead := if node.edge0 == null && node.edge1 == null then plen else plen + 1;
        cur := if plen < width then cur.Sub(value[plen]) else End;
        prev, node := node, if plen < width then node.Edge(value[plen]) else null;
      }
      SearchEnd(m, skel, value, plen, matchLen, dead, cur);
      checkbits := if prev == null || (prev.edge0 == null && prev.edge1 == null) then plen else plen + 1;
    }

    /** The pruning loop of `trie_remove`. */
    method PruneUpwards(path0: seq<bool>, stack0: seq<TrieNode>, node0: TrieNode, ghost key: Bits, ghost was: Tree)
      requires node0 in repr && repr == Nodes(skel) && Linked(Contents(), root, skel) && Shape(Value(), width) && |key| <= width
      requires Delta(was, Value(), key, -1) && StackIs(skel, path0, stack0) && Pruning(Contents(), skel, key, path0, node0)
      modifies this`root, this`skel, this`repr, repr
      ensures repr <= old(repr) && Updated(was, key, -1)
    {
      hide Linked, Shape, Live, Abs, Nodes, Count, Delta, StackIs, Pruning;
      var path, stack, node := path0, stack0, node0;
      while node.nRules == 0 && (node.edge0 == null || node.edge1 == null)
        invariant node in repr && repr <= old(repr) && repr == Nodes(skel) && Linked(Contents(), root, skel)
        invariant Shape(Value(), width) && Delta(was, Value(), key, -1)
        invariant StackIs(skel, path, stack) && Pruning(Contents(), skel, key, path, node)
        decreases |path|
      {
        var stop := PruneStep(path, stack, node, key, was);
        if stop { return; }
        node := stack[|path| - 1];
        path, stack := path[..|path| - 1], stack[..|path| - 1];
      }
      PruningDone(Contents(), skel, key, path, node);
    }
  }

  /** What lookup still returns from node 't' on, with 'plen' bits behind it. */
  ghost function Resume(t: Tree, rest: Bits, plen: nat, best: nat, dead: nat): (nat, nat) {
    if t.Nil? then (best, dead) else
      var r := Lookup(t, rest);
      (if r.0 > 0 then plen + r.0 else best, plen + r.1)
  }

  ghost predicate Searching(m: Mem, sk: Skel, value: Bits, plen: nat, best: nat, dead: nat, node: TrieNode?, cur: Skel) {
    && plen <= |value| && Linked(m, node, cur) && Nodes(cur) <= Nodes(sk) && Shape(Abs(m, cur), |value| - plen)
    && (cur.Cell? ==> plen < |value| && (Abs(m, cur).bits == [] ==> plen == 0 && best == 0))
    && Lookup(Abs(m, sk), value) == Resume(Abs(m, cur), value[plen..], plen, best, dead)
  }

  lemma SearchStart(m: Mem, sk: Skel, value: Bits, root: TrieNode?)
    requires Linked(m, root, sk) && value != [] && Shape(Abs(m, sk), |value|)
    ensures Searching(m, sk, value, 0, 0, 0, root, sk)
  {
    hide Shape, Linked, Nodes;
    assert value[0..] == value;
  }

  lemma SearchEnd(m: Mem, sk: Skel, value: Bits, plen: nat, best: nat, dead: nat, cur: Skel)
    requires Searching(m, sk, value, plen, best, dead, null, cur)
    ensures Lookup(Abs(m, sk), value) == (best, dead)
  {
    hide Shape, Lookup;
  }

  lemma SearchNode(m: Mem, sk: Skel, value: Bits, plen: nat, best: nat, dead: nat, node: TrieNode, cur: Skel)
    requires Searching(m, sk, value, plen, best, dead, node, cur)
    ensures plen < |value| && cur.Cell? && cur.node == node && node in m && m[node].WordOk() && node in Nodes(sk)
    ensures plen + m[node].nbits <= |value|
    ensures var eq := Common(m[node].prefix[..m[node].nbits], value[plen..]);
            eq < m[node].nbits ==> Lookup(Abs(m, sk), value) == (best, plen + eq + 1)
  {
    hide Common, Linked, Nodes, Lookup, Shape, Abs;
    CellNode(m, node, cur);
    var t, rest := Abs(m, cur), value[plen..];
    ShapeRoom(t, |rest|);
    PrefixOrMismatch(t.bits, rest);
    if !(t.bits <= rest) { LookupMiss(t, rest); }
  }

  lemma ShapeRoom(t: Tree, room: nat)
    requires Shape(t, room) && t.Node?
    ensures |t.bits| <= room
  {
  }

  lemma LookupMiss(t: Tree, v: Bits)
    requires t.Node? && !(t.bits <= v)
    ensures Lookup(t, v) == (0, Common(t.bits, v) + 1)
  {
  }

  lemma PrefixOrMismatch(a: Bits, b: Bits)
    requires |a| <= |b|
    ensures a <= b <==> Common(a, b) == |a|
  {
    if a <= b { CommonUnique(a, b, |a|); }
  }

  lemma SearchStep(m: Mem, sk: Skel, value: Bits, plen: nat, best: nat, dead: nat, node: TrieNode, cur: Skel)
    requires Searching(m, sk, value, plen, best, dead, node, cur) && node in m && m[node].nbits <= |m[node].prefix|
    requires Common(m[node].prefix[..m[node].nbits], value[plen..]) == m[node].nbits
    ensures var here := plen + m[node].nbits;
            && here <= |value|
            && Searching(m, sk, value, here, if m[node].nRules > 0 then here else best,
                         if m[node].edge0 == null && m[node].edge1 == null then here else here + 1,
                         if here < |value| then m[node].Edge(value[here]) else null,
                         if here < |value| then cur.Sub(value[here]) else End)
            && Nodes(if here < |value| then cur.Sub(value[here]) else End) < Nodes(cur)
  {
    hide Common, Linked, Nodes, Abs, Lookup;
    CellParts(m, node, cur);
    var t, rest, n := Abs(m, cur), value[plen..], m[node].nbits;
    PrefixOrMismatch(t.bits, rest);
    LookupUnfold(t, rest);
    assert rest[n..] == value[plen + n..];
    var here := plen + n;
    var cur' := if here < |value| then cur.Sub(value[here]) else End;
    NullTree();
    assert Linked(m, null, End);
    NullIsNil(m, m[node].edge0, cur.s0);
    NullIsNil(m, m[node].edge1, cur.s1);
    assert Abs(m, cur') == Next(t, rest[n..]);
    assert Nodes(cur') < Nodes(cur);
  }

  /** If the walk ends anywhere but at a node with rules for exactly 'key', 'key' is not stored. */
  lemma NotStored(m: Mem, sk: Skel, key: Bits, path: seq<bool>, ofs: nat, node: TrieNode?, bag: multiset<Bits>)
    requires Stands(m, sk, key, path, ofs, node) && Stores(Abs(m, sk), bag)
    requires node != null && node in m && m[node].WordOk() ==>
               !(m[node].prefix[..m[node].nbits] <= key[ofs..]) || (m[node].prefix[..m[node].nbits] == key[ofs..] && m[node].nRules == 0)
    ensures key !in bag
  {
    hide Follows, Rest, SkAt, SkHas, At;
    CountAtEnd(Abs(m, sk), path, key);
    assert Count(Abs(m, sk), key) == bag[key];
    if node == null { NullIsNil(m, node, SkAt(sk, path)); } else { CellNode(m, node, SkAt(sk, path)); }
  }

  lemma PruningStart(m: Mem, sk: Skel, key: Bits, path: seq<bool>, ofs: nat, node: TrieNode)
    requires Stands(m, sk, key, path, ofs, node) && LiveAround(Abs(m, sk), path)
    requires At(Abs(m, sk), path).Node? && Live(At(Abs(m, sk), path).e0) && Live(At(Abs(m, sk), path).e1)
    ensures Pruning(m, sk, key, path, node)
  {
  }

  /** The loop stops at a node that holds a rule or two subtrees. */
  lemma PruningDone(m: Mem, sk: Skel, key: Bits, path: seq<bool>, node: TrieNode)
    requires Pruning(m, sk, key, path, node) && node in m
    requires m[node].nRules > 0 || (m[node].edge0 != null && m[node].edge1 != null)
    ensures Live(Abs(m, sk))
  {
    hide Follows, SkAt, SkHas, At, LiveAround, Abs, Linked, Nodes;
    CellParts(m, node, SkAt(sk, path));
    NullIsNil(m, m[node].edge0, SkAt(sk, path).s0);
    LiveJoin(Abs(m, sk), path, key);
  }

  lemma PruningNode(m: Mem, sk: Skel, key: Bits, path: seq<bool>, node: TrieNode)
    requires Pruning(m, sk, key, path, node)
    ensures node in Nodes(sk)
  {
    hide Follows, SkHas, At, LiveAround, Live;
  }

  lemma NullTree()
    ensures forall m: Mem :: Linked(m, null, End) && Abs(m, End) == Nil
    ensures Nodes(End) == {}
  {
  }

  lemma DeltaTrans(a: Tree, b: Tree, c: Tree, key: Bits, d: int)
    requires Delta(a, b, key, d) && Delta(b, c, key, 0)
    ensures Delta(a, c, key, d)
  {
    hide Count;
  }

  lemma PlugRoot(t: Tree)
    ensures Live(Plug(t, [], Nil))
  {
  }

  /** The pruning loop of `trie_remove` stands at 'node': all else is live. */
  ghost predicate Pruning(m: Mem, sk: Skel, key: Bits, path: seq<bool>, node: TrieNode?) {
    && Follows(Abs(m, sk), path, key) && SkHas(sk, path) && LiveAround(Abs(m, sk), path)
    && Linked(m, node, SkAt(sk, path))
    && Abs(m, SkAt(sk, path)) == At(Abs(m, sk), path)
    && At(Abs(m, sk), path).Node? && Live(At(Abs(m, sk), path).e0) && Live(At(Abs(m, sk), path).e1)
  }

  lemma PruningReady(m: Mem, n: TrieNode?, sk: Skel, key: Bits, path: seq<bool>, node: TrieNode, width: nat)
    requires Linked(m, n, sk) && Pruning(m, sk, key, path, node) && |key| <= width && Shape(Abs(m, sk), width)
    ensures var sub, u := SkAt(sk, path), At(Abs(m, sk), path);
            && Follows(Abs(m, sk), path, key) && SkHas(sk, path) && LiveAround(Abs(m, sk), path)
            && sub == Cell(node, sub.s0, sub.s1) && Linked(m, node, sub) && u == Abs(m, sub)
            && node in m && m[node].WordOk() && u.Node? && u.nRules == m[node].nRules && u.bits == m[node].prefix[..m[node].nbits]
            && Linked(m, m[node].edge0, sub.s0) && Linked(m, m[node].edge1, sub.s1)
            && u.e0 == Abs(m, sub.s0) && u.e1 == Abs(m, sub.s1)
            && (m[node].edge0 == null <==> u.e0.Nil?) && (m[node].edge1 == null <==> u.e1.Nil?)
            && Nodes(sub.s0) <= Nodes(sub) && Nodes(sub.s1) <= Nodes(sub) && node !in Nodes(sub.s0) && node !in Nodes(sub.s1)
            && var rest, p := Rest(Abs(m, sk), path, key), Prune(u);
               && Delta(u, p, rest, 0) && Shape(p, width - |key| + |rest|) && Live(p)
               && (path != [] ==> FitsEdge(p, path[|path| - 1]))
  {
    hide Linked, Shape, Live, Delta, Follows, Rest, Abs, At, SkAt, Nodes, SkHas, LiveAround, Count, Prune;
    ShapeAt(Abs(m, sk), path, key, width);
    var u := At(Abs(m, sk), path);
    PruneKeeps(u, width - |key| + |Rest(Abs(m, sk), path, key)|, Rest(Abs(m, sk), path, key));
    CellParts(m, node, SkAt(sk, path));
    NullIsNil(m, m[node].edge0, SkAt(sk, path).s0);
    NullIsNil(m, m[node].edge1, SkAt(sk, path).s1);
  }

  lemma NullIsNil(m: Mem, n: TrieNode?, sk: Skel)
    requires Linked(m, n, sk)
    ensures n == null <==> Abs(m, sk).Nil?
    ensures n == null ==> sk == End
  {
  }

  /** The step back to the parent after a leaf has been pruned. */
  lemma PruneUp(m: Mem, m': Mem, n: TrieNode?, sk: Skel, key: Bits, path: seq<bool>, b: bool, stack: seq<TrieNode>, top: TrieNode)
    requires StackIs(sk, path + [b], stack + [top]) && Follows(Abs(m, sk), path + [b], key) && LiveAround(Abs(m, sk), path + [b])
    requires var sk' := SkPlug(sk, path + [b], End); Linked(m', n, sk') && Abs(m', sk') == Plug(Abs(m, sk), path + [b], Nil)
    ensures var sk' := SkPlug(sk, path + [b], End); StackIs(sk', path, stack) && Pruning(m', sk', key, path, top)
  {
    hide Linked, Follows, Rest, Abs, At, SkAt, SkHas, LiveAround, Count, StackIs, Plug, SkPlug;
    var sk' := SkPlug(sk, path + [b], End);
    PlugSame(Abs(m, sk), path + [b], Nil, key);
    PathUp(Abs(m', sk'), path, b, key);
    StackUp(sk, path, b, stack, top);
    LinkedAt(m', n, sk', path);
    EdgeIsCell(m', if path == [] then n else m'[SkParent(sk', path)].Edge(path[|path| - 1]), SkAt(sk', path));
  }

  /** The same for the last step of a path. */
  lemma PruneParent(m: Mem, m': Mem, n: TrieNode?, sk: Skel, sk': Skel, key: Bits, path: seq<bool>, stack: seq<TrieNode>)
    requires path != [] && StackIs(sk, path, stack) && Follows(Abs(m, sk), path, key) && LiveAround(Abs(m, sk), path)
    requires sk' == SkPlug(sk, path, End) && Linked(m', n, sk') && Abs(m', sk') == Plug(Abs(m, sk), path, Nil)
    ensures var k := |path| - 1;
            |stack| == |path| && stack[k] in Nodes(sk') && StackIs(sk', path[..k], stack[..k]) && Pruning(m', sk', key, path[..k], stack[k])
  {
    hide Linked, Live, Follows, Abs, Nodes, LiveAround, Pruning, StackIs, Plug, SkPlug;
    StackTop(sk, path, stack);
    var k := |path| - 1;
    assert path == path[..k] + [path[k]] && stack == stack[..k] + [stack[k]];
    PruneUp(m, m', n, sk, key, path[..k], path[k], stack[..k], stack[k]);
    PruningNode(m', sk', key, path[..k], stack[k]);
  }

  lemma {:induction false} StackUp(sk: Skel, path: seq<bool>, b: bool, stack: seq<TrieNode>, top: TrieNode)
    requires StackIs(sk, path + [b], stack + [top])
    ensures var sk' := SkPlug(sk, path + [b], End);
            StackIs(sk', path, stack) && SkHas(sk', path) && SkAt(sk', path).Cell? && SkAt(sk', path).node == top
    decreases path
  {
    if path == [] {
      assert (path + [b])[1..] == [];
    } else {
      SnocTail(path, b);
      assert (stack + [top])[1..] == stack[1..] + [top];
      StackUp(sk.Sub(path[0]), path[1..], b, stack[1..], top);
    }
  }

  /** Combines a node with its only child 'next'. */
  method MergeNode(node: TrieNode, next: TrieNode, ghost sk: Skel, ghost nodes: set<TrieNode>)
    requires nodes == Nodes(sk) && Linked(Snap(nodes), next, sk) && node !in nodes && node.Val().WordOk()
    requires node.nbits + next.nbits <= TRIE_PREFIX_BITS
    modifies next
    ensures Linked(Snap(nodes), next, sk)
    ensures var child := old(Abs(Snap(nodes), sk));
            child.Node? && Abs(Snap(nodes), sk) == child.(bits := old(node.prefix[..node.nbits]) + child.bits)
  {
    hide Linked, Abs, Nodes, Or, Shr;
    ghost var m := Snap(nodes);
    CellParts(m, next, sk);
    next.prefix := Or(node.prefix, Shr(next.prefix, node.nbits));
    next.nbits := next.nbits + node.nbits;
    MergeCell(m, Snap(nodes), node.Val(), next, sk);
  }

  lemma MergeCell(m: Mem, m': Mem, node: NodeVal, next: TrieNode, sk: Skel)
    requires Linked(m, next, sk) && node.WordOk() && next in m && m[next].WordOk() && node.nbits + m[next].nbits <= 32
    requires next in m' && Agree(m, m', Nodes(sk) - {next})
    requires m'[next] == m[next].(prefix := Or(node.prefix, Shr(m[next].prefix, node.nbits)), nbits := m[next].nbits + node.nbits)
    ensures Linked(m', next, sk) && Abs(m, sk).Node?
    ensures Abs(m', sk) == Abs(m, sk).(bits := node.prefix[..node.nbits] + Abs(m, sk).bits)
  {
    hide Linked, Abs, Nodes, Or, Shr;
    CellParts(m, next, sk);
    AbsFrame(m, m', m[next].edge0, sk.s0);
    AbsFrame(m, m', m[next].edge1, sk.s1);
    MergedWord(node, m[next]);
    TopCell(m', next, false, sk.s0, sk.s1);
  }

  lemma MergedWord(a: NodeVal, b: NodeVal)
    requires a.WordOk() && b.WordOk() && a.nbits + b.nbits <= 32
    ensures var w, n := Or(a.prefix, Shr(b.prefix, a.nbits)), a.nbits + b.nbits;
            && (forall i :: n <= i < 32 ==> !w[i])
            && w[..n] == a.prefix[..a.nbits] + b.prefix[..b.nbits]
  {
    hide Or, Shr;
  }

  lemma RecountCell(m: Mem, m': Mem, n: TrieNode?, sk: Skel, key: Bits, path: seq<bool>, ofs: nat, node: TrieNode, width: nat, d: int)
    requires Linked(m, n, sk) && Stands(m, sk, key, path, ofs, node) && |key| <= width
    requires Shape(Abs(m, sk), width) && Live(Abs(m, sk))
    requires m[node].prefix[..m[node].nbits] == key[ofs..] && m[node].nRules + d >= 0
    requires m'.Keys == m.Keys && m'[node] == m[node].(nRules := m[node].nRules + d)
    requires forall o :: o in m && o != node ==> m'[o] == m[o]
    ensures Linked(m', n, sk) && Shape(Abs(m', sk), width) && Delta(Abs(m, sk), Abs(m', sk), key, d)
    ensures Stands(m', sk, key, path, ofs, node)
    ensures LiveAround(Abs(m', sk), path)
    ensures var u := At(Abs(m', sk), path); u.Node? && u.nRules == m'[node].nRules && Live(u.e0) && Live(u.e1)
    ensures m'[node].nRules > 0 ==> Live(Abs(m', sk))
  {
    hide Linked, Shape, Delta, Follows, Rest, At, SkAt, Nodes, FitsEdge, Abs;
    var sub := SkAt(sk, path);
    Standing(m, sk, key, path, ofs, node, width);
    LinkedAt(m, n, sk, path);
    SkPlugSame(sk, path);
    LinkedKeys(m, n, sk);
    CellNode(m, node, sub);
    RecountNode(m, m', node, sub, d);
    RecountShape(Abs(m, sub), m'[node].nRules, width - ofs, path != [] && path[|path| - 1]);
    assert OnlyEdgeChanged(m, m', sk, path, node) by {
      if path != [] { EdgeIsCell(m, m[SkParent(sk, path)].Edge(path[|path| - 1]), sub); }
    }
    PlugIsUpdate(m, m', n, sk, path, node, sub, key, width, d);
    PlugSame(Abs(m, sk), path, Abs(m', sub), key);
    if m'[node].nRules > 0 { LiveJoin(Abs(m', sk), path, key); }
  }

  lemma EdgeIsCell(m: Mem, n: TrieNode?, sk: Skel)
    requires Linked(m, n, sk) && sk.Cell?
    ensures n == sk.node
  {
  }

  lemma RecountNode(m: Mem, m': Mem, node: TrieNode, sk: Skel, d: int)
    requires Linked(m, node, sk) && node in m && m[node].nRules + d >= 0
    requires m'.Keys == m.Keys && m'[node] == m[node].(nRules := m[node].nRules + d)
    requires forall o :: o in m && o != node ==> m'[o] == m[o]
    ensures Linked(m', node, sk)
    ensures Abs(m, sk).Node? && Abs(m, sk).nRules + d >= 0
    ensures Abs(m', sk) == Abs(m, sk).(nRules := Abs(m, sk).nRules + d)
    ensures Delta(Abs(m, sk), Abs(m', sk), Abs(m, sk).bits, d)
  {
    hide Count, Delta, Nodes, Linked, Abs;
    CellParts(m, node, sk);
    LinkedKeys(m, m[node].edge0, sk.s0);
    LinkedKeys(m, m[node].edge1, sk.s1);
    AbsFrame(m, m', m[node].edge0, sk.s0);
    AbsFrame(m, m', m[node].edge1, sk.s1);
    TopCell(m', node, false, sk.s0, sk.s1);
    RootDelta(Abs(m, sk), m[node].nRules + d);
  }

  lemma CellParts(m: Mem, node: TrieNode, sk: Skel)
    requires Linked(m, node, sk)
    ensures sk == Cell(node, sk.s0, sk.s1) && node in m && m[node].WordOk()
    ensures Linked(m, m[node].edge0, sk.s0) && Linked(m, m[node].edge1, sk.s1)
    ensures node !in Nodes(sk.s0) && node !in Nodes(sk.s1) && Nodes(sk.s0) !! Nodes(sk.s1)
    ensures Nodes(sk) == {node} + Nodes(sk.s0) + Nodes(sk.s1)
    ensures Abs(m, sk) == Node(m[node].prefix[..m[node].nbits], m[node].nRules, Abs(m, sk.s0), Abs(m, sk.s1))
  {
  }

  lemma RecountShape(u: Tree, n: nat, room: nat, b: bool)
    requires u.Node? && Shape(u, room)
    ensures Shape(u.(nRules := n), room) && (FitsEdge(u, b) ==> FitsEdge(u.(nRules := n), b))
    ensures Live(u.e0) && Live(u.e1) && n > 0 ==> Live(u.(nRules := n))
  {
  }

  lemma {:induction false} LinkedKeys(m: Mem, n: TrieNode?, sk: Skel)
    requires Linked(m, n, sk)
    ensures Nodes(sk) <= m.Keys
  {
    if sk.Cell? {
      LinkedKeys(m, m[sk.node].edge0, sk.s0);
      LinkedKeys(m, m[sk.node].edge1, sk.s1);
    }
  }

  /** Adjusts a node whose first 'c' bits move to a new parent. */
  method LowerNode(node: TrieNode, c: nat, ghost sk: Skel, ghost nodes: set<TrieNode>)
    requires nodes == Nodes(sk) && Linked(Snap(nodes), node, sk) && c <= node.nbits
    modifies node
    ensures Linked(Snap(nodes), node, sk) && Abs(Snap(nodes), sk) == Lower(old(Abs(Snap(nodes), sk)), c)
  {
    hide Linked, Abs, Nodes, Shl, Lower;
    ghost var m := Snap(nodes);
    CellNode(m, node, sk);
    node.prefix := Shl(node.prefix, c);
    node.nbits := node.nbits - c;
    LowerCell(m, Snap(nodes), node, sk, c);
  }

  /** Cuts 'node' in two and hangs the rest of 'prefix' beside its lower half. */
  method SplitNode(prefix: Bits, mlen: nat, ofs: nat, node: TrieNode, eqbits: nat, ghost sk: Skel, ghost nodes: set<TrieNode>)
      returns (top: TrieNode, ghost all: Skel)
    requires IsValue(prefix) && ofs < mlen <= |prefix| && nodes == Nodes(sk) && Linked(Snap(nodes), node, sk)
    requires eqbits < node.nbits && eqbits == Common(node.prefix[..node.nbits], prefix[..mlen][ofs..])
    modifies node
    ensures Linked(Snap(Nodes(all)), top, all) && nodes <= Nodes(all) && fresh(Nodes(all) - nodes)
    ensures Abs(Snap(Nodes(all)), all) == Split(old(Abs(Snap(nodes), sk)), prefix[..mlen][ofs..], eqbits)
  {
    hide TrieGetPrefix, Common, Branch, Shl, Abs, Linked, Split, SameUpTo, Nodes, Lower;
    ghost var u, rest := Abs(Snap(nodes), sk), prefix[..mlen][ofs..];
    CellNode(Snap(nodes), node, sk);
    var side, word := node.prefix[eqbits], TrieGetPrefix(prefix, ofs, eqbits);
    TopWord(node.prefix, node.nbits, prefix, ofs, mlen);
    var branch, other, more := RestOfKey(prefix, ofs + eqbits, mlen);
    assert prefix[ofs + eqbits..mlen] == rest[eqbits..];
    LowerNode(node, eqbits, sk, nodes);
    top, all := NewParent(word, eqbits, if ofs + eqbits == mlen then 1 else 0, side, node, branch, sk, nodes, other, more, u, rest);
  }

  /** The new parent node above the two parts of a split. */
  method NewParent(word: Bits, c: nat, nRules: nat, side: bool, node: TrieNode, branch: TrieNode?,
                   ghost sk: Skel, ghost nodes: set<TrieNode>, ghost other: Skel, ghost more: set<TrieNode>,
                   ghost u: Tree, ghost rest: Bits) returns (top: TrieNode, ghost all: Skel)
    requires nodes == Nodes(sk) && more == Nodes(other) && nodes !! more
    requires u.Node? && c < |u.bits| && c <= |rest| && side == u.bits[c] && nRules == (if c == |rest| then 1 else 0)
    requires c <= |word| == 32 && word[..c] == u.bits[..c]
    requires forall i :: c <= i < 32 ==> !word[i]
    requires Linked(Snap(nodes), node, sk) && Abs(Snap(nodes), sk) == Lower(u, c)
    requires Linked(Snap(more), branch, other) && Abs(Snap(more), other) == (if c < |rest| then Branch(rest[c..], 1) else Nil)
    ensures nodes <= Nodes(all) && fresh(Nodes(all) - nodes - more)
    ensures Linked(Snap(Nodes(all)), top, all) && Abs(Snap(Nodes(all)), all) == Split(u, rest, c)
  {
    hide Branch, Abs, Linked, Split, Nodes, Lower;
    ghost var m, was := Snap(nodes), Snap(more);
    top := new TrieNode(word, c, nRules);
    if side { top.edge0, top.edge1 := branch, node; } else { top.edge0, top.edge1 := node, branch; }
    all := Cell(top, End, End).WithSub(side, sk).WithSub(!side, other);
    SplitCells(m, was, Snap({top} + nodes + more), node, sk, top, other, u, rest);
  }

  lemma TopWord(word: Bits, nbits: nat, prefix: Bits, ofs: nat, mlen: nat)
    requires |word| == 32 && nbits <= 32 && IsValue(prefix) && ofs <= mlen <= |prefix|
    ensures var eqbits := Common(word[..nbits], prefix[..mlen][ofs..]);
            TrieGetPrefix(prefix, ofs, eqbits)[..eqbits] == word[..eqbits]
  {
    hide TrieGetPrefix, Common;
    var eqbits := Common(word[..nbits], prefix[..mlen][ofs..]);
    forall j | 0 <= j < eqbits ensures TrieGetPrefix(prefix, ofs, eqbits)[j] == word[j] {
      assert word[..nbits][j] == prefix[..mlen][ofs..][j];
    }
  }

  /** The branch for what is left of a prefix, if anything is. */
  method RestOfKey(prefix: Bits, ofs: nat, mlen: nat) returns (branch: TrieNode?, ghost sk: Skel, ghost nodes: set<TrieNode>)
    requires IsValue(prefix) && ofs <= mlen <= |prefix|
    ensures nodes == Nodes(sk) && fresh(nodes) && Linked(Snap(nodes), branch, sk)
    ensures Abs(Snap(nodes), sk) == if ofs < mlen then Branch(prefix[ofs..mlen], 1) else Nil
  {
    branch, sk, nodes := null, End, {};
    if ofs < mlen {
      branch, sk := BranchCreate(prefix, ofs, mlen - ofs, 1);
      nodes := Nodes(sk);
    }
  }

  /** The nodes that a split leaves behind, from what each part of them holds. */
  lemma SplitCells(m: Mem, was: Mem, m': Mem, node: TrieNode, sk: Skel, top: TrieNode, other: Skel, u: Tree, rest: Bits)
    requires top in m' && m'[top].WordOk() && u.Node?
    requires var c := m'[top].nbits;
             && c < |u.bits| && c <= |rest|
             && m'[top].prefix[..c] == u.bits[..c] && m'[top].nRules == (if c == |rest| then 1 else 0)
             && m'[top].Edge(u.bits[c]) == node
             && Linked(was, m'[top].Edge(!u.bits[c]), other)
             && Abs(was, other) == (if c < |rest| then Branch(rest[c..], 1) else Nil)
             && Linked(m, node, sk) && Abs(m, sk) == Lower(u, c)
    requires Agree(m, m', Nodes(sk)) && Agree(was, m', Nodes(other))
    requires top !in Nodes(sk) && top !in Nodes(other) && Nodes(sk) !! Nodes(other)
    ensures var c := m'[top].nbits;
            var all := Cell(top, End, End).WithSub(u.bits[c], sk).WithSub(!u.bits[c], other);
            && Linked(m', top, all) && Nodes(all) == {top} + Nodes(sk) + Nodes(other)
            && Abs(m', all) == Split(u, rest, c)
  {
    hide Linked, Abs, Branch, Shl;
    var side := u.bits[m'[top].nbits];
    AbsFrame(m, m', node, sk);
    AbsFrame(was, m', m'[top].Edge(!side), other);
    TopCell(m', top, side, sk, other);
  }
}
