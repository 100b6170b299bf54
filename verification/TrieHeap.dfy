/**
 The prefix trie of `lib/classifier.c` as the linked nodes that it is: 32-bit prefix
 words, edges that are followed and replaced in place, and the two update loops.
 */
module TrieHeap {
  import opened Bits
  import opened TrieModel

  // ----- word-level helpers

  /** A field value is a nonempty array of words. */
  predicate IsValue(v: Bits) {
    0 < |v| && |v| % 32 == 0
  }

  /** At least 'plen' bits of 'pr' from bit 'ofs' on, left-aligned in a word. */
  function RawGetPrefix(pr: Bits, ofs: nat, plen: nat): (w: Bits)
    requires IsValue(pr) && ofs < |pr| && ofs + plen <= |pr| && plen <= 32
    ensures |w| == 32 && forall j :: 0 <= j < plen ==> w[j] == pr[ofs + j]
  {
    var first := Shl(Word(pr, ofs / 32), ofs % 32);
    if plen > 32 - ofs % 32 then
      Or(first, Shr(Word(pr, ofs / 32 + 1), 32 - ofs % 32))
    else
      first
  }

  /** Up to one word of prefix, with the unwanted bits cleared. */
  function TrieGetPrefix(pr: Bits, ofs: nat, plen: nat): (w: Bits)
    requires IsValue(pr) && ofs + plen <= |pr|
    ensures |w| == 32
    ensures forall j :: 0 <= j < 32 ==> w[j] == (j < plen && pr[ofs + j])
  {
    if plen == 0 then Zeros(32) else
      var n := if plen > TRIE_PREFIX_BITS then TRIE_PREFIX_BITS else plen;
      And(RawGetPrefix(pr, ofs, n), Ones(n, 32))
  }

  /** How many of the first 'nbits' bits of 'prefix' equal 'value' from 'ofs' on. */
  function PrefixEqualBits(prefix: Bits, nbits: nat, value: Bits, ofs: nat): (n: nat)
    requires |prefix| == 32 && nbits <= 32
    requires IsValue(value) && ofs < |value| && ofs + nbits <= |value|
    ensures n == Common(prefix[..nbits], value[ofs..])
  {
    var diff := Xor(prefix, RawGetPrefix(value, ofs, nbits));
    var n := Clz(Or(diff + Zeros(32), Zeros(nbits) + [true] + Zeros(63 - nbits)));
    EqualBitsAreCommon(prefix, nbits, value, ofs, n);
    n
  }

  lemma EqualBitsAreCommon(prefix: Bits, nbits: nat, value: Bits, ofs: nat, n: nat)
    requires |prefix| == 32 && nbits <= 32
    requires IsValue(value) && ofs < |value| && ofs + nbits <= |value|
    requires n == Clz(Or(Xor(prefix, RawGetPrefix(value, ofs, nbits)) + Zeros(32), Zeros(nbits) + [true] + Zeros(63 - nbits)))
    ensures n == Common(prefix[..nbits], value[ofs..])
  {
    var raw := RawGetPrefix(value, ofs, nbits);
    var w := Or(Xor(prefix, raw) + Zeros(32), Zeros(nbits) + [true] + Zeros(63 - nbits));
    assert w[nbits];
    assert n <= nbits;
    forall j | 0 <= j < nbits ensures w[j] == (prefix[j] != value[ofs + j]) {}
    assert SameUpTo(prefix[..nbits], value[ofs..], n);
    CommonUnique(prefix[..nbits], value[ofs..], n);
  }

  // ----- linked nodes

  class TrieNode {
    var prefix: Bits
    var nbits: nat
    var nRules: nat
    var edge0: TrieNode?
    var edge1: TrieNode?

    constructor (prefix: Bits, nbits: nat, nRules: nat)
      ensures this.prefix == prefix && this.nbits == nbits && this.nRules == nRules
      ensures edge0 == null && edge1 == null
    {
      this.prefix, this.nbits, this.nRules := prefix, nbits, nRules;
      edge0, edge1 := null, null;
    }

    function Val(): NodeVal
      reads this
    {
      NodeVal(prefix, nbits, nRules, edge0, edge1)
    }

    function Edge(b: bool): TrieNode?
      reads this
    {
      if b then edge1 else edge0
    }

    method SetEdge(b: bool, n: TrieNode?)
      modifies this
      ensures Val() == old(Val()).WithEdge(b, n)
    {
      if b { edge1 := n; } else { edge0 := n; }
    }
  }

  /** The contents of a node, and of a set of nodes at one moment. */
  datatype NodeVal = NodeVal(prefix: Bits, nbits: nat, nRules: nat, edge0: TrieNode?, edge1: TrieNode?)
  {
    function Edge(b: bool): TrieNode? {
      if b then edge1 else edge0
    }

    function WithEdge(b: bool, n: TrieNode?): NodeVal {
      if b then this.(edge1 := n) else this.(edge0 := n)
    }

    /** The bits past 'nbits' are zero. */
    predicate WordOk() {
      |prefix| == 32 && nbits <= 32 && forall i :: nbits <= i < 32 ==> !prefix[i]
    }
  }

  type Mem = map<TrieNode, NodeVal>

  ghost function Snap(s: set<TrieNode>): (m: Mem)
    reads s
    ensures m.Keys == s
  {
    map o | o in s :: o.Val()
  }

  ghost predicate Agree(m: Mem, m': Mem, s: set<TrieNode>) {
    forall o :: o in s ==> o in m && o in m' && m[o] == m'[o]
  }

  /** The nodes of a trie in the form of a tree, for specifications. */
  datatype Skel = End | Cell(node: TrieNode, s0: Skel, s1: Skel)
  {
    function Sub(b: bool): Skel
      requires Cell?
    {
      if b then s1 else s0
    }

    function WithSub(b: bool, s: Skel): Skel
      requires Cell?
    {
      if b then this.(s1 := s) else this.(s0 := s)
    }
  }

  ghost function Nodes(sk: Skel): set<TrieNode> {
    if sk.End? then {} else {sk.node} + Nodes(sk.s0) + Nodes(sk.s1)
  }

  /** In 'm', 'n' is the root of the nodes in 'sk', linked as 'sk' says and without sharing. */
  ghost predicate Linked(m: Mem, n: TrieNode?, sk: Skel) {
    match sk
    case End => n == null
    case Cell(o, s0, s1) =>
      && n == o && o in m && m[o].WordOk()
      && Linked(m, m[o].edge0, s0) && Linked(m, m[o].edge1, s1)
      && o !in Nodes(s0) && o !in Nodes(s1) && Nodes(s0) !! Nodes(s1)
  }

  /** The tree that the nodes in 'sk' stand for. */
  ghost function Abs(m: Mem, sk: Skel): (t: Tree)
    ensures t.Nil? <==> sk.End?
  {
    match sk
    case End => Nil
    case Cell(o, s0, s1) =>
      if o in m && m[o].WordOk()
      then Node(m[o].prefix[..m[o].nbits], m[o].nRules, Abs(m, s0), Abs(m, s1))
      else Node([], 0, Nil, Nil)
  }

  lemma {:induction false} AbsFrame(m: Mem, m': Mem, n: TrieNode?, sk: Skel)
    requires Linked(m, n, sk) && Agree(m, m', Nodes(sk))
    ensures Linked(m', n, sk) && Abs(m', sk) == Abs(m, sk)
  {
    if sk.Cell? {
      AbsFrame(m, m', m[sk.node].edge0, sk.s0);
      AbsFrame(m, m', m[sk.node].edge1, sk.s1);
    }
  }

  ghost function SkAt(sk: Skel, path: seq<bool>): (r: Skel)
    ensures Nodes(r) <= Nodes(sk)
    decreases path
  {
    if path == [] || sk.End? then sk else SkAt(sk.Sub(path[0]), path[1..])
  }

  ghost predicate SkHas(sk: Skel, path: seq<bool>)
    decreases path
  {
    path == [] || (sk.Cell? && SkHas(sk.Sub(path[0]), path[1..]))
  }

  /** The node whose edge is the last one in 'path'. */
  ghost function SkParent(sk: Skel, path: seq<bool>): (o: TrieNode)
    requires path != [] && SkHas(sk, path)
    ensures o in Nodes(sk)
    decreases path
  {
    if |path| == 1 then sk.node else SkParent(sk.Sub(path[0]), path[1..])
  }

  ghost function SkPlug(sk: Skel, path: seq<bool>, sub: Skel): Skel
    decreases path
  {
    if path == [] then sub
    else if sk.End? then sk
    else sk.WithSub(path[0], SkPlug(sk.Sub(path[0]), path[1..], sub))
  }

  lemma {:induction false} LinkedAt(m: Mem, n: TrieNode?, sk: Skel, path: seq<bool>)
    requires Linked(m, n, sk) && SkHas(sk, path)
    ensures Abs(m, SkAt(sk, path)) == At(Abs(m, sk), path)
    ensures path != [] ==> SkParent(sk, path) in m && SkParent(sk, path) !in Nodes(SkAt(sk, path))
    ensures Linked(m, if path == [] then n else m[SkParent(sk, path)].Edge(path[|path| - 1]), SkAt(sk, path))
    decreases path
  {
    if path != [] {
      LinkedAt(m, m[sk.node].Edge(path[0]), sk.Sub(path[0]), path[1..]);
    }
  }

  lemma {:induction false} SkExtend(sk: Skel, path: seq<bool>, b: bool)
    requires SkHas(sk, path) && SkAt(sk, path).Cell?
    ensures SkHas(sk, path + [b])
    ensures SkAt(sk, path + [b]) == SkAt(sk, path).Sub(b)
    ensures SkParent(sk, path + [b]) == SkAt(sk, path).node
    decreases path
  {
    if path == [] {
      assert (path + [b])[1..] == [];
    } else {
      SnocTail(path, b);
      SkExtend(sk.Sub(path[0]), path[1..], b);
    }
  }

  /** Outside the subtree at 'path', nothing changed but the edge to it, which is now 'edge'. */
  ghost predicate OnlyEdgeChanged(m: Mem, m': Mem, sk: Skel, path: seq<bool>, edge: TrieNode?)
    requires SkHas(sk, path)
  {
    path != [] ==>
      var p := SkParent(sk, path);
      && (forall o :: o in Nodes(sk) && o !in Nodes(SkAt(sk, path)) && o != p ==> o in m && o in m' && m[o] == m'[o])
      && p in m && p in m' && m'[p] == m[p].WithEdge(path[|path| - 1], edge)
  }

  lemma EdgeChangedBelow(m: Mem, m': Mem, sk: Skel, path: seq<bool>, edge: TrieNode?)
    requires path != [] && SkHas(sk, path) && sk.node in m && OnlyEdgeChanged(m, m', sk, path, edge)
    requires sk.node !in Nodes(sk.s0) && sk.node !in Nodes(sk.s1) && Nodes(sk.s0) !! Nodes(sk.s1)
    ensures OnlyEdgeChanged(m, m', sk.Sub(path[0]), path[1..], edge)
    ensures sk.node in m' && m'[sk.node] == m[sk.node].WithEdge(path[0], if |path| == 1 then edge else m[sk.node].Edge(path[0]))
    ensures Agree(m, m', Nodes(sk.Sub(!path[0])))
  {
    var child, p := sk.Sub(path[0]), SkParent(sk, path);
    assert SkAt(sk, path) == SkAt(child, path[1..]);
    assert |path| > 1 ==> p == SkParent(child, path[1..]);
  }

  lemma {:induction false} NodesPlug(m: Mem, n: TrieNode?, sk: Skel, path: seq<bool>, sub: Skel)
    requires Linked(m, n, sk) && SkHas(sk, path)
    ensures Nodes(SkPlug(sk, path, sub)) == Nodes(sk) - Nodes(SkAt(sk, path)) + Nodes(sub)
    decreases path
  {
    if path != [] {
      NodesPlug(m, m[sk.node].Edge(path[0]), sk.Sub(path[0]), path[1..], sub);
    }
  }

  lemma RelinkNode(m: Mem, m': Mem, n: TrieNode?, sk: Skel, b: bool, edge: TrieNode?, sub: Skel)
    requires Linked(m, n, sk) && sk.Cell? && Agree(m, m', Nodes(sk.Sub(!b)))
    requires sk.node in m' && m'[sk.node] == m[sk.node].WithEdge(b, edge)
    requires Linked(m', edge, sub) && sk.node !in Nodes(sub) && Nodes(sub) !! Nodes(sk.Sub(!b))
    ensures Linked(m', n, sk.WithSub(b, sub))
    ensures Abs(m', sk.WithSub(b, sub)) == WithEdge(Abs(m, sk), b, Abs(m', sub))
  {
    AbsFrame(m, m', m[sk.node].Edge(!b), sk.Sub(!b));
  }

  /**
   Replacing the edge at the end of 'path' turns the whole into the old tree with the
   new subtree plugged in.
   */
  lemma {:induction false} Relink(m: Mem, m': Mem, n: TrieNode?, sk: Skel, path: seq<bool>, edge: TrieNode?, sub: Skel)
    requires Linked(m, n, sk) && SkHas(sk, path) && OnlyEdgeChanged(m, m', sk, path, edge)
    requires Linked(m', edge, sub)
    requires forall o :: o in Nodes(sub) && o in Nodes(sk) ==> o in Nodes(SkAt(sk, path))
    ensures Linked(m', if path == [] then edge else n, SkPlug(sk, path, sub))
    ensures Abs(m', SkPlug(sk, path, sub)) == Plug(Abs(m, sk), path, Abs(m', sub))
    decreases path
  {
    if path != [] {
      var b := path[0];
      var e, child := m[sk.node].Edge(b), sk.Sub(b);
      EdgeChangedBelow(m, m', sk, path, edge);
      Relink(m, m', e, child, path[1..], edge, sub);
      NodesPlug(m, e, child, path[1..], sub);
      RelinkNode(m, m', n, sk, b, if |path| == 1 then edge else e, SkPlug(child, path[1..], sub));
    }
  }

  lemma {:induction false} SkFollows(m: Mem, n: TrieNode?, sk: Skel, path: seq<bool>, key: Bits)
    requires Linked(m, n, sk) && Follows(Abs(m, sk), path, key)
    ensures SkHas(sk, path)
    decreases path
  {
    if path != [] {
      SkFollows(m, m[sk.node].Edge(path[0]), sk.Sub(path[0]), path[1..], key[|Abs(m, sk).bits|..]);
    }
  }

  /** What an update that replaces the edge at the end of 'path' has to show. */
  lemma PlugIsUpdate(m: Mem, m': Mem, n: TrieNode?, sk: Skel, path: seq<bool>, edge: TrieNode?, sub: Skel,
                     key: Bits, width: nat, d: int)
    requires Linked(m, n, sk) && Shape(Abs(m, sk), width) && |key| <= width
    requires Follows(Abs(m, sk), path, key) && SkHas(sk, path) && OnlyEdgeChanged(m, m', sk, path, edge)
    requires Linked(m', edge, sub)
    requires forall o :: o in Nodes(sub) && o in Nodes(sk) ==> o in Nodes(SkAt(sk, path))
    requires var rest := Rest(Abs(m, sk), path, key);
             && Shape(Abs(m', sub), width - |key| + |rest|)
             && Delta(At(Abs(m, sk), path), Abs(m', sub), rest, d)
    requires path != [] ==> FitsEdge(Abs(m', sub), path[|path| - 1])
    ensures var sk' := SkPlug(sk, path, sub);
            && Linked(m', if path == [] then edge else n, sk')
            && Abs(m', sk') == Plug(Abs(m, sk), path, Abs(m', sub))
            && Shape(Abs(m', sk'), width)
            && Delta(Abs(m, sk), Abs(m', sk'), key, d)
  {
    ShapePlug(Abs(m, sk), path, Abs(m', sub), key, width);
    DeltaPlug(Abs(m, sk), path, Abs(m', sub), key, d);
    Relink(m, m', n, sk, path, edge, sub);
  }

  lemma ChainCell(m: Mem, m': Mem, node: TrieNode, word: Bits, b: bool, subnode: TrieNode, below: Skel)
    requires Linked(m, subnode, below) && Agree(m, m', Nodes(below)) && node !in Nodes(below) && |word| == 32
    requires node in m' && m'[node] == NodeVal(word, 32, 0, null, null).WithEdge(b, subnode)
    ensures Linked(m', node, Cell(node, End, End).WithSub(b, below))
    ensures Abs(m', Cell(node, End, End).WithSub(b, below)) == WithEdge(Node(word, 0, Nil, Nil), b, Abs(m, below))
  {
    AbsFrame(m, m', subnode, below);
    assert word[..32] == word;
  }

  lemma LeafCell(m: Mem, node: TrieNode, word: Bits, plen: nat, nRules: nat, bits: Bits)
    requires node in m && m[node] == NodeVal(word, plen, nRules, null, null) && m[node].WordOk()
    requires plen <= TRIE_PREFIX_BITS && |word| == 32 && |bits| == plen && word[..plen] == bits
    ensures Linked(m, node, Cell(node, End, End)) && Abs(m, Cell(node, End, End)) == Branch(bits, nRules)
  {
  }

  lemma BranchUnfold(bits: Bits, nRules: nat)
    requires |bits| > TRIE_PREFIX_BITS
    ensures Branch(bits, nRules) == WithEdge(Node(bits[..TRIE_PREFIX_BITS], 0, Nil, Nil), bits[TRIE_PREFIX_BITS], Branch(bits[TRIE_PREFIX_BITS..], nRules))
  {
  }

  /** `trie_branch_create`. */
  method BranchCreate(prefix: Bits, ofs: nat, plen: nat, nRules: nat) returns (node: TrieNode, ghost sk: Skel)
    requires IsValue(prefix) && ofs + plen <= |prefix|
    ensures fresh(Nodes(sk)) && Linked(Snap(Nodes(sk)), node, sk)
    ensures Abs(Snap(Nodes(sk)), sk) == Branch(prefix[ofs..ofs + plen], nRules)
    decreases plen
  {
    hide TrieGetPrefix, Branch, Abs, Linked;
    var word := TrieGetPrefix(prefix, ofs, plen);
    ghost var bits := prefix[ofs..ofs + plen];
    if plen <= TRIE_PREFIX_BITS {
      node := new TrieNode(word, plen, nRules);
      sk := Cell(node, End, End);
      LeafCell(Snap(Nodes(sk)), node, word, plen, nRules, bits);
    } else {
      var subnode, below := BranchCreate(prefix, ofs + TRIE_PREFIX_BITS, plen - TRIE_PREFIX_BITS, nRules);
      ghost var m := Snap(Nodes(below));
      assert bits[TRIE_PREFIX_BITS..] == prefix[ofs + TRIE_PREFIX_BITS..ofs + plen];
      BranchHead(bits[TRIE_PREFIX_BITS..], nRules);
      BranchUnfold(bits, nRules);
      HeadBit(m, subnode, below, bits[TRIE_PREFIX_BITS..], nRules);
      var bit := subnode.prefix[0];
      node := new TrieNode(word, TRIE_PREFIX_BITS, 0);
      node.SetEdge(bit, subnode);
      sk := Cell(node, End, End).WithSub(bit, below);
      assert word == bits[..TRIE_PREFIX_BITS];
      ChainCell(m, Snap(Nodes(sk)), node, word, bit, subnode, below);
    }
  }

  lemma BranchHead(bits: Bits, nRules: nat)
    requires bits != []
    ensures var t := Branch(bits, nRules); t.Node? && 0 < |t.bits| && t.bits[0] == bits[0]
  {
  }

  lemma HeadBit(m: Mem, node: TrieNode, sk: Skel, bits: Bits, nRules: nat)
    requires Linked(m, node, sk) && bits != [] && Abs(m, sk) == Branch(bits, nRules)
    ensures node in Nodes(sk) && node in m && |m[node].prefix| > 0 && m[node].prefix[0] == bits[0]
  {
    BranchHead(bits, nRules);
  }

  /** A node whose first 'c' bits have been shifted out. */
  lemma LowerCell(m: Mem, m': Mem, node: TrieNode, sk: Skel, c: nat)
    requires Linked(m, node, sk) && c <= m[node].nbits
    requires node in m' && m'[node] == m[node].(prefix := Shl(m[node].prefix, c), nbits := m[node].nbits - c)
    requires Agree(m, m', Nodes(sk) - {node})
    ensures Linked(m', node, sk) && Abs(m', sk) == Lower(Abs(m, sk), c)
  {
    AbsFrame(m, m', m[node].edge0, sk.s0);
    AbsFrame(m, m', m[node].edge1, sk.s1);
    assert m'[node].prefix[..m'[node].nbits] == m[node].prefix[..m[node].nbits][c..];
  }

  /** A node with given contents above two linked subtrees. */
  lemma TopCell(m: Mem, top: TrieNode, b: bool, sk: Skel, other: Skel)
    requires top in m && m[top].WordOk() && Linked(m, m[top].Edge(b), sk) && Linked(m, m[top].Edge(!b), other)
    requires top !in Nodes(sk) && top !in Nodes(other) && Nodes(sk) !! Nodes(other)
    ensures var all := Cell(top, End, End).WithSub(b, sk).WithSub(!b, other);
            && Linked(m, top, all)
            && Nodes(all) == {top} + Nodes(sk) + Nodes(other)
            && Abs(m, all) == WithEdge(WithEdge(Node(m[top].prefix[..m[top].nbits], m[top].nRules, Nil, Nil), b, Abs(m, sk)), !b, Abs(m, other))
  {
  }

  lemma {:induction false} SkPlugSame(sk: Skel, path: seq<bool>)
    requires SkHas(sk, path)
    ensures SkPlug(sk, path, SkAt(sk, path)) == sk
    decreases path
  {
    if path != [] { SkPlugSame(sk.Sub(path[0]), path[1..]); }
  }
}
