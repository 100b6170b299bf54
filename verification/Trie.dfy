/**
 The prefix trie of `lib/classifier.c` as a value: the tree, the bag of prefixes it
 stands for, and longest-prefix lookup.
 */
module TrieModel {
  import opened Bits

  const TRIE_PREFIX_BITS: nat := 32

  /** A trie node: its bits, the number of rules at exactly this prefix, its edges. */
  datatype Tree = Nil | Node(bits: Bits, nRules: nat, e0: Tree, e1: Tree)
  {
    predicate IsLeaf()
      requires Node?
    {
      e0.Nil? && e1.Nil?
    }

    function Edge(bit: bool): Tree
      requires Node?
    {
      if bit then e1 else e0
    }
  }

  /** A node may hang on edge 'bit' if it is nonempty and starts with that bit. */
  predicate FitsEdge(t: Tree, bit: bool) {
    t.Node? ==> |t.bits| > 0 && t.bits[0] == bit
  }

  /**
   The shape invariant: at most 32 bits per node, at least one in every node but the
   root, a child's first bit equal to its edge, at most 'room' bits from here down.
   */
  predicate Shape(t: Tree, room: nat) {
    t.Node? ==>
      && |t.bits| <= TRIE_PREFIX_BITS
      && |t.bits| <= room
      && FitsEdge(t.e0, false) && FitsEdge(t.e1, true)
      && Shape(t.e0, room - |t.bits|) && Shape(t.e1, room - |t.bits|)
  }

  /** No node is useless: every leaf holds a rule. */
  predicate Live(t: Tree) {
    t.Node? ==> (t.IsLeaf() ==> t.nRules > 0) && Live(t.e0) && Live(t.e1)
  }

  /** The subtree that 'key' leads to below a node whose bits it starts with. */
  function Next(t: Tree, rest: Bits): Tree
    requires t.Node?
  {
    if rest == [] then Nil else t.Edge(rest[0])
  }

  /** The number of rules stored at exactly the prefix 'key'. */
  function Count(t: Tree, key: Bits): nat
    decreases t
  {
    if t.Nil? || !(t.bits <= key) then 0
    else if t.bits == key then t.nRules
    else Count(Next(t, key[|t.bits|..]), key[|t.bits|..])
  }

  /**
   `trie_lookup_value` below node 't' for the remaining bits 'v': the length of the
   longest stored prefix (0 if none), and the number of bits that decide it.
   */
  function Lookup(t: Tree, v: Bits): (r: (nat, nat))
    decreases t
  {
    if t.Nil? then (0, 0)
    else if !(t.bits <= v) then (0, Common(t.bits, v) + 1)
    else
      var rest := v[|t.bits|..];
      var next := Next(t, rest);
      Combine(t, next.Node?, if next.Node? then Lookup(next, rest) else (0, 0))
  }

  /** The results at a fully matched node, given those below it. */
  function Combine(t: Tree, more: bool, below: (nat, nat)): (r: (nat, nat))
    requires t.Node?
  {
    (if below.0 > 0 then |t.bits| + below.0 else if t.nRules > 0 then |t.bits| else 0,
     |t.bits| + if more then below.1 else if t.IsLeaf() then 0 else 1)
  }

  lemma LookupUnfold(t: Tree, v: Bits)
    requires t.Node? && t.bits <= v
    ensures var rest := v[|t.bits|..];
            var next := Next(t, rest);
            Lookup(t, v) == Combine(t, next.Node?, if next.Node? then Lookup(next, rest) else (0, 0))
  {
  }

  lemma CountBelow(t: Tree, v: Bits, k: nat)
    requires t.Node? && k <= |v| && t.bits <= v
    ensures k < |t.bits| ==> Count(t, v[..k]) == 0
    ensures k == |t.bits| ==> Count(t, v[..k]) == t.nRules
    ensures k > |t.bits| ==>
              var rest := v[|t.bits|..];
              Count(t, v[..k]) == Count(Next(t, rest), rest[..k - |t.bits|])
  {
    if k > |t.bits| {
      assert v[..k][|t.bits|..] == v[|t.bits|..][..k - |t.bits|];
    }
  }

  lemma CountOff(t: Tree, v: Bits, k: nat)
    requires t.Node? && k <= |v| && !(t.bits <= v)
    ensures Count(t, v[..k]) == 0
  {
  }

  /** 'm' is the length of the longest prefix of 'v' stored in 't', or 0 if there is none. */
  ghost predicate IsLongest(t: Tree, v: Bits, m: nat) {
    && m <= |v|
    && (m > 0 ==> Count(t, v[..m]) > 0)
    && forall k :: 0 <= k <= |v| && Count(t, v[..k]) > 0 ==> k <= m
  }

  lemma LongestStep(t: Tree, v: Bits, m: nat)
    requires t.Node? && t.bits <= v && Shape(t, |v|)
    requires var rest := v[|t.bits|..]; IsLongest(Next(t, rest), rest, m)
    ensures IsLongest(t, v, if m > 0 then |t.bits| + m else if t.nRules > 0 then |t.bits| else 0)
  {
    hide Count;
    var rest := v[|t.bits|..];
    var total := if m > 0 then |t.bits| + m else if t.nRules > 0 then |t.bits| else 0;
    CountBelow(t, v, total);
    forall k | 0 <= k <= |v| && Count(t, v[..k]) > 0 ensures k <= total {
      CountBelow(t, v, k);
      if k > |t.bits| { assert Count(Next(t, rest), rest[..k - |t.bits|]) > 0; }
    }
  }

  /** The first result is the length of the longest stored prefix of the value. */
  lemma {:induction false} LookupLongest(t: Tree, v: Bits)
    requires Shape(t, |v|)
    ensures IsLongest(t, v, Lookup(t, v).0)
    decreases t
  {
    if t.Node? {
      if t.bits <= v {
        var rest := v[|t.bits|..];
        if Next(t, rest).Node? { LookupLongest(Next(t, rest), rest); }
        LongestStep(t, v, Lookup(Next(t, rest), rest).0);
      } else {
        forall k | 0 <= k <= |v| ensures Count(t, v[..k]) == 0 { CountOff(t, v, k); }
      }
    }
  }

  /** The number of deciding bits is positive below a nonempty node, and within the value. */
  lemma {:induction false} CheckbitsBounds(t: Tree, v: Bits)
    requires Shape(t, |v|)
    ensures Lookup(t, v).1 <= |v|
    ensures t.Node? && t.bits != [] ==> Lookup(t, v).1 > 0
    decreases t
  {
    if t.Node? && t.bits <= v {
      var rest := v[|t.bits|..];
      if Next(t, rest).Node? { CheckbitsBounds(Next(t, rest), rest); }
    }
  }

  lemma CommonSame(a: Bits, p: Bits, x: Bits, y: Bits)
    requires |a| <= |p + x| && |x| == |y| && !(a <= p + x) && Common(a, p + x) < |p|
    ensures !(a <= p + y) && Common(a, p + y) == Common(a, p + x)
  {
    CommonUnique(a, p + y, Common(a, p + x));
  }

  lemma DropHead(a: Bits, p: Bits, x: Bits)
    requires a <= p + x && |a| <= |p|
    ensures a <= p && (p + x)[|a|..] == p[|a|..] + x
  {
  }

  /** The value's bits past the first 'p' play no part if `checkbits` stays within 'p'. */
  lemma {:induction false} LookupUsesHead(t: Tree, p: Bits, x: Bits, y: Bits)
    requires |x| == |y| && Shape(t, |p + x|) && Lookup(t, p + x).1 <= |p|
    ensures Lookup(t, p + y) == Lookup(t, p + x)
    decreases t
  {
    if t.Node? {
      if t.bits <= p + x {
        var n := |t.bits|;
        DropHead(t.bits, p, x);
        assert t.bits <= p + y;
        DropHead(t.bits, p, y);
        var next := Next(t, p[n..] + x);
        if next.Node? {
          CheckbitsBounds(next, p[n..] + x);
          LookupUsesHead(next, p[n..], x, y);
        }
        assert Next(t, p[n..] + y) == next;
      } else {
        CommonSame(t.bits, p, x, y);
      }
    }
  }

  /** Any value that agrees on the first `checkbits` bits gets the same two results. */
  lemma LookupStable(t: Tree, v: Bits, w: Bits)
    requires Shape(t, |v|) && |w| == |v|
    ensures Lookup(t, v).1 <= |v|
    ensures SameUpTo(v, w, Lookup(t, v).1) ==> Lookup(t, w) == Lookup(t, v)
  {
    hide Lookup, Shape;
    CheckbitsBounds(t, v);
    var c := Lookup(t, v).1;
    if SameUpTo(v, w, c) {
      CommonHead(v, w, c);
      LookupUsesHead(t, v[..c], v[c..], w[c..]);
    }
  }

  lemma CommonHead(v: Bits, w: Bits, c: nat)
    requires SameUpTo(v, w, c)
    ensures v == v[..c] + v[c..] && w == v[..c] + w[c..]
  {
  }

  // ----- no fewer bits would do

  /** The longest stored prefix of the value, as bits. */
  function Best(t: Tree, v: Bits): Bits
    requires Lookup(t, v).0 <= |v|
  {
    v[..Lookup(t, v).0]
  }

  /** Below every live node some prefix is stored, and some value finds it. */
  lemma {:induction false} DeepValue(t: Tree, room: nat) returns (w: Bits)
    requires t.Node? && Shape(t, room) && Live(t)
    ensures |w| == room && t.bits <= w && Lookup(t, w).0 >= |t.bits|
    decreases t
  {
    if t.IsLeaf() {
      w := t.bits + Zeros(room - |t.bits|);
      LookupUnfold(t, w);
    } else {
      var bit := t.e1.Node?;
      var below := DeepValue(t.Edge(bit), room - |t.bits|);
      w := t.bits + below;
      assert w[|t.bits|..] == below && Next(t, below) == t.Edge(bit);
      LookupUnfold(t, w);
    }
  }

  /** 'u' agrees with 'v' on all but the last of the deciding bits, and finds another prefix. */
  ghost predicate Differs(t: Tree, v: Bits, u: Bits) {
    && |u| == |v| && 0 < Lookup(t, v).1 <= |v| && SameUpTo(v, u, Lookup(t, v).1 - 1)
    && Lookup(t, u).0 <= |u| && Lookup(t, v).0 <= |v| && Best(t, u) != Best(t, v)
  }

  /** The second result is the least number of bits that decide the longest stored prefix. */
  lemma {:induction false} CheckbitsLeast(t: Tree, v: Bits)
    requires Shape(t, |v|) && Live(t) && Lookup(t, v).1 > 0
    ensures exists u :: Differs(t, v, u)
    decreases t
  {
    hide Shape, Live, Lookup, Differs;
    NodeParts(t, v);
    if !(t.bits <= v) {
      LeastMismatch(t, v);
    } else {
      var rest := v[|t.bits|..];
      if Next(t, rest).Node? {
        CheckbitsBounds(Next(t, rest), rest);
        CheckbitsLeast(Next(t, rest), rest);
        var u :| Differs(Next(t, rest), rest, u);
        LeastBelow(t, v, u);
      } else if t.IsLeaf() {
        LeastLeaf(t, v);
      } else {
        LeastDeadEnd(t, v);
      }
    }
  }

  lemma NodeParts(t: Tree, v: Bits)
    requires Shape(t, |v|) && Live(t) && Lookup(t, v).1 > 0
    ensures t.Node? && (t.bits <= v ==> var rest := v[|t.bits|..];
              && Shape(Next(t, rest), |rest|) && Live(Next(t, rest)) && (Next(t, rest).Node? ==> Next(t, rest).bits != []))
  {
  }

  lemma BestFits(t: Tree, v: Bits)
    requires Shape(t, |v|)
    ensures Lookup(t, v).0 <= |v| && Lookup(t, v).1 <= |v|
  {
    hide Lookup, Shape, Count;
    LookupLongest(t, v);
    CheckbitsBounds(t, v);
  }

  lemma LeastMismatch(t: Tree, v: Bits)
    requires Shape(t, |v|) && Live(t) && t.Node? && !(t.bits <= v)
    ensures exists u :: Differs(t, v, u)
  {
    hide Live;
    var u := DeepValue(t, |v|);
    BestFits(t, u);
    BestFits(t, v);
    assert Differs(t, v, u);
  }

  lemma LeastLeaf(t: Tree, v: Bits)
    requires Shape(t, |v|) && Live(t) && t.Node? && t.IsLeaf() && t.bits <= v && Lookup(t, v).1 > 0
    ensures exists u :: Differs(t, v, u)
  {
    LookupUnfold(t, v);
    var c := |t.bits|;
    var u := v[..c - 1] + [!v[c - 1]] + v[c..];
    assert u[c - 1] != t.bits[c - 1];
    assert Differs(t, v, u);
  }

  lemma LeastDeadEnd(t: Tree, v: Bits)
    requires Shape(t, |v|) && Live(t) && t.Node? && !t.IsLeaf() && t.bits <= v && Next(t, v[|t.bits|..]).Nil?
    ensures exists u :: Differs(t, v, u)
  {
    hide Live, Shape, Lookup, Differs, SameUpTo;
    var n := |t.bits|;
    var rest := v[n..];
    DeadEndParts(t, v);
    var other := t.Edge(!rest[0]);
    var below := DeepValue(other, |rest|);
    var u := t.bits + below;
    assert u[n..] == below && v == t.bits + rest && below[0] != rest[0] && Next(t, below) == other;
    LookupUnfold(t, u);
    LookupUnfold(t, v);
    BestFits(t, u);
    BestFits(t, v);
    SameStart(t.bits, rest, below, 0);
    LongerDiffers(t, v, u);
  }

  lemma SameStart(a: Bits, x: Bits, y: Bits, n: nat)
    requires n <= |x| == |y| && SameUpTo(x, y, n)
    ensures SameUpTo(a + x, a + y, |a| + n)
  {
  }

  lemma LongerDiffers(t: Tree, v: Bits, u: Bits)
    requires |u| == |v| && 0 < Lookup(t, v).1 <= |v| && SameUpTo(v, u, Lookup(t, v).1 - 1)
    requires Lookup(t, u).0 <= |u| && Lookup(t, v).0 <= |v| && Lookup(t, u).0 != Lookup(t, v).0
    ensures Differs(t, v, u)
  {
    hide Lookup;
  }

  lemma DeadEndParts(t: Tree, v: Bits)
    requires Shape(t, |v|) && Live(t) && t.Node? && !t.IsLeaf() && t.bits <= v && Next(t, v[|t.bits|..]).Nil?
    ensures var rest := v[|t.bits|..];
            rest != [] && var other := t.Edge(!rest[0]); other.Node? && Live(other) && Shape(other, |rest|) && other.bits != [] && other.bits[0] == !rest[0]
  {
  }

  lemma BelowParts(t: Tree, v: Bits)
    requires Shape(t, |v|) && Live(t) && t.Node? && t.bits <= v && Next(t, v[|t.bits|..]).Node?
    ensures var rest := v[|t.bits|..];
            var next := Next(t, rest); rest != [] && Live(next) && Shape(next, |rest|) && next.bits != [] && next.bits[0] == rest[0]
  {
  }

  lemma LeastBelow(t: Tree, v: Bits, below: Bits)
    requires Shape(t, |v|) && Live(t) && t.Node? && t.bits <= v && Next(t, v[|t.bits|..]).Node?
    requires Differs(Next(t, v[|t.bits|..]), v[|t.bits|..], below)
    ensures exists u :: Differs(t, v, u)
  {
    hide Live, Lookup, Shape, SameUpTo, Best;
    var n, rest := |t.bits|, v[|t.bits|..];
    var u, next := t.bits + below, Next(t, rest);
    BelowParts(t, v);
    assert u[n..] == below && v == t.bits + rest;
    BestFits(t, u);
    BestFits(t, v);
    LookupUnfold(t, v);
    SameStart(t.bits, rest, below, Lookup(next, rest).1 - 1);
    if below[0] == rest[0] {
      DifferBelow(t, rest, below);
    } else {
      DifferHere(t, rest, below);
    }
    assert Differs(t, v, u);
  }

  lemma DifferBelow(t: Tree, rest: Bits, below: Bits)
    requires t.Node? && |rest| == |below| > 0 && below[0] == rest[0] && Next(t, rest).Node?
    requires Shape(t, |t.bits + rest|) && Lookup(t, t.bits + rest).0 <= |t.bits + rest| && Lookup(t, t.bits + below).0 <= |t.bits + rest|
    requires Differs(Next(t, rest), rest, below)
    ensures Best(t, t.bits + below) != Best(t, t.bits + rest)
  {
    hide Lookup, Shape, Best, SameUpTo;
    var next := Next(t, rest);
    assert (t.bits + rest)[|t.bits|..] == rest && (t.bits + below)[|t.bits|..] == below;
    BestBelow(t, t.bits + rest);
    BestBelow(t, t.bits + below);
    SameHead(t.bits, Best(next, rest), Best(next, below));
  }

  lemma DifferHere(t: Tree, rest: Bits, below: Bits)
    requires t.Node? && |rest| == |below| > 0 && below[0] != rest[0] && Next(t, rest).Node?
    requires Lookup(t, t.bits + rest).0 <= |t.bits + rest| && Lookup(t, t.bits + below).0 <= |t.bits + rest|
    requires var next := Next(t, rest); Live(next) && Shape(next, |rest|) && next.bits != [] && next.bits[0] == rest[0] && Differs(next, rest, below)
    ensures Best(t, t.bits + below) != Best(t, t.bits + rest)
  {
    hide Lookup, Shape, Live;
    assert (t.bits + rest)[|t.bits|..] == rest;
    LookupUnfold(t, t.bits + rest);
    OneBitLeaf(Next(t, rest), rest);
    OtherBit(t.bits, rest, below, Lookup(t, t.bits + rest).0, Lookup(t, t.bits + below).0);
  }

  lemma SameHead(a: Bits, x: Bits, y: Bits)
    requires x != y
    ensures a + x != a + y
  {
    assert (a + x)[|a|..] == x && (a + y)[|a|..] == y;
  }

  lemma OtherBit(a: Bits, x: Bits, y: Bits, m: nat, n: nat)
    requires x != [] && y != [] && x[0] != y[0] && |a| < m <= |a + x| && n <= |a + y|
    ensures (a + x)[..m] != (a + y)[..n]
  {
    if m == n { assert (a + x)[..m][|a|] == x[0] && (a + y)[..n][|a|] == y[0]; }
  }

  /** A prefix found below a node is found behind the node's bits. */
  lemma BestBelow(t: Tree, v: Bits)
    requires Shape(t, |v|) && t.Node? && t.bits <= v && Next(t, v[|t.bits|..]).Node?
    requires Lookup(Next(t, v[|t.bits|..]), v[|t.bits|..]).0 <= |v| - |t.bits| && Lookup(t, v).0 <= |v|
    ensures var b := Best(Next(t, v[|t.bits|..]), v[|t.bits|..]);
            if b == [] then |Best(t, v)| <= |t.bits| else Best(t, v) == t.bits + b
  {
    hide Lookup, Shape;
    LookupUnfold(t, v);
  }

  lemma OneBitLeaf(next: Tree, rest: Bits)
    requires next.Node? && next.bits != [] && rest != [] && next.bits[0] == rest[0] && Live(next) && Shape(next, |rest|)
    requires Lookup(next, rest).1 == 1
    ensures Lookup(next, rest).0 == 1
  {
    if next.bits <= rest {
      LookupUnfold(next, rest);
      ChecksBelow(next, rest);
    }
  }

  lemma ChecksBelow(t: Tree, v: Bits)
    requires t.Node? && t.bits <= v && Shape(t, |v|)
    ensures var rest := v[|t.bits|..]; Next(t, rest).Node? ==> Lookup(Next(t, rest), rest).1 > 0
  {
    hide Lookup, Shape;
    var rest := v[|t.bits|..];
    NextShape(t, v);
    if Next(t, rest).Node? { CheckbitsBounds(Next(t, rest), rest); }
  }

  lemma NextShape(t: Tree, v: Bits)
    requires t.Node? && t.bits <= v && Shape(t, |v|)
    ensures var rest := v[|t.bits|..]; Shape(Next(t, rest), |rest|) && (Next(t, rest).Node? ==> Next(t, rest).bits != [])
  {
  }

  // ----- changing one subtree

  /** 't'' stores what 't' stores, except that 'key' is stored 'd' times more. */
  ghost predicate Delta(t: Tree, t': Tree, key: Bits, d: int) {
    forall k :: Count(t', k) == Count(t, k) + if k == key then d else 0
  }

  function WithEdge(t: Tree, bit: bool, s: Tree): (r: Tree)
    requires t.Node?
    ensures r.Node? && r.Edge(bit) == s && r.Edge(!bit) == t.Edge(!bit)
    ensures r.bits == t.bits && r.nRules == t.nRules
  {
    if bit then t.(e1 := s) else t.(e0 := s)
  }

  /** The edges in 'path' are those that 'key' takes from the root of 't'. */
  predicate Follows(t: Tree, path: seq<bool>, key: Bits)
    decreases path
  {
    path == [] ||
    (t.Node? && t.bits < key && key[|t.bits|] == path[0] && Follows(t.Edge(path[0]), path[1..], key[|t.bits|..]))
  }

  function At(t: Tree, path: seq<bool>): Tree
    decreases path
  {
    if path == [] || t.Nil? then t else At(t.Edge(path[0]), path[1..])
  }

  /** The part of 'key' that is left at the end of 'path'. */
  function Rest(t: Tree, path: seq<bool>, key: Bits): (r: Bits)
    requires Follows(t, path, key)
    ensures |r| <= |key|
    ensures path != [] ==> r != [] && r[0] == path[|path| - 1]
    decreases path
  {
    if path == [] then key else Rest(t.Edge(path[0]), path[1..], key[|t.bits|..])
  }

  lemma {:induction false} RestIsSuffix(t: Tree, path: seq<bool>, key: Bits)
    requires Follows(t, path, key)
    ensures Rest(t, path, key) == key[|key| - |Rest(t, path, key)|..]
    decreases path
  {
    if path != [] { RestIsSuffix(t.Edge(path[0]), path[1..], key[|t.bits|..]); }
  }

  function Plug(t: Tree, path: seq<bool>, s: Tree): Tree
    decreases path
  {
    if path == [] then s
    else if t.Nil? then t
    else WithEdge(t, path[0], Plug(t.Edge(path[0]), path[1..], s))
  }

  lemma SnocTail(path: seq<bool>, b: bool)
    requires path != []
    ensures (path + [b])[0] == path[0] && (path + [b])[1..] == path[1..] + [b]
  {
  }

  lemma {:induction false} FollowsExtend(t: Tree, path: seq<bool>, key: Bits, b: bool)
    requires Follows(t, path, key) && At(t, path).Node? && At(t, path).bits < Rest(t, path, key)
    requires Rest(t, path, key)[|At(t, path).bits|] == b
    ensures Follows(t, path + [b], key)
    ensures At(t, path + [b]) == At(t, path).Edge(b)
    ensures Rest(t, path + [b], key) == Rest(t, path, key)[|At(t, path).bits|..]
    decreases path
  {
    var longer := path + [b];
    if path == [] {
      assert longer[1..] == [];
      assert Follows(t.Edge(b), longer[1..], key[|t.bits|..]);
    } else {
      FollowsExtend(t.Edge(path[0]), path[1..], key[|t.bits|..], b);
      SnocTail(path, b);
    }
  }

  lemma DeltaStep(t: Tree, b: bool, s: Tree, key: Bits, d: int)
    requires t.Node? && t.bits < key && key[|t.bits|] == b
    requires Delta(t.Edge(b), s, key[|t.bits|..], d)
    ensures Delta(t, WithEdge(t, b, s), key, d)
  {
    var n, t' := |t.bits|, WithEdge(t, b, s);
    forall k ensures Count(t', k) == Count(t, k) + if k == key then d else 0 {
      if t.bits < k {
        assert k == t.bits + k[n..];
        assert key == t.bits + key[n..];
        assert k[n..] == key[n..] <==> k == key;
      }
    }
  }

  /** Changing one subtree changes the whole bag by the same amount. */
  lemma {:induction false} DeltaPlug(t: Tree, path: seq<bool>, s: Tree, key: Bits, d: int)
    requires Follows(t, path, key) && Delta(At(t, path), s, Rest(t, path, key), d)
    ensures Delta(t, Plug(t, path, s), key, d)
    decreases path
  {
    if path != [] {
      DeltaPlug(t.Edge(path[0]), path[1..], s, key[|t.bits|..], d);
      DeltaStep(t, path[0], Plug(t.Edge(path[0]), path[1..], s), key, d);
    }
  }

  lemma {:induction false} ShapePlug(t: Tree, path: seq<bool>, s: Tree, key: Bits, room: nat)
    requires Follows(t, path, key) && Shape(t, room) && |key| <= room
    requires Shape(s, room - |key| + |Rest(t, path, key)|)
    requires path != [] ==> FitsEdge(s, path[|path| - 1])
    ensures Shape(Plug(t, path, s), room)
    decreases path
  {
    if path != [] {
      var child := t.Edge(path[0]);
      ShapePlug(child, path[1..], s, key[|t.bits|..], room - |t.bits|);
      if |path| > 1 { assert Plug(child, path[1..], s).bits == child.bits; }
    }
  }

  lemma {:induction false} ShapeAt(t: Tree, path: seq<bool>, key: Bits, room: nat)
    requires Follows(t, path, key) && Shape(t, room) && |key| <= room
    ensures Shape(At(t, path), room - |key| + |Rest(t, path, key)|)
    ensures path != [] ==> FitsEdge(At(t, path), path[|path| - 1])
    decreases path
  {
    if path != [] { ShapeAt(t.Edge(path[0]), path[1..], key[|t.bits|..], room - |t.bits|); }
  }

  /** Every leaf outside the subtree at 'path' holds a rule. */
  predicate LiveAround(t: Tree, path: seq<bool>)
    decreases path
  {
    path == [] || (t.Node? && Live(t.Edge(!path[0])) && LiveAround(t.Edge(path[0]), path[1..]))
  }

  lemma {:induction false} LivePlug(t: Tree, path: seq<bool>, s: Tree)
    requires LiveAround(t, path) && Live(s) && (path != [] ==> s.Node?)
    ensures Live(Plug(t, path, s))
    decreases path
  {
    if path != [] { LivePlug(t.Edge(path[0]), path[1..], s); }
  }

  lemma {:induction false} LiveSplit(t: Tree, path: seq<bool>, key: Bits)
    requires Follows(t, path, key) && Live(t)
    ensures LiveAround(t, path) && Live(At(t, path))
    decreases path
  {
    if path != [] { LiveSplit(t.Edge(path[0]), path[1..], key[|t.bits|..]); }
  }

  lemma {:induction false} LiveJoin(t: Tree, path: seq<bool>, key: Bits)
    requires Follows(t, path, key) && LiveAround(t, path) && Live(At(t, path)) && At(t, path).Node?
    ensures Live(t)
    decreases path
  {
    if path != [] { LiveJoin(t.Edge(path[0]), path[1..], key[|t.bits|..]); }
  }

  /** Replacing a subtree does not move the path to it. */
  lemma {:induction false} PlugSame(t: Tree, path: seq<bool>, s: Tree, key: Bits)
    requires Follows(t, path, key)
    ensures Follows(Plug(t, path, s), path, key) && At(Plug(t, path, s), path) == s
    ensures Rest(Plug(t, path, s), path, key) == Rest(t, path, key)
    ensures LiveAround(t, path) ==> LiveAround(Plug(t, path, s), path)
    decreases path
  {
    if path != [] { PlugSame(t.Edge(path[0]), path[1..], s, key[|t.bits|..]); }
  }

  /** Only the subtree at the end of the path decides how often 'key' is stored. */
  lemma {:induction false} CountAtEnd(t: Tree, path: seq<bool>, key: Bits)
    requires Follows(t, path, key)
    ensures Count(t, key) == Count(At(t, path), Rest(t, path, key))
    decreases path
  {
    if path != [] { CountAtEnd(t.Edge(path[0]), path[1..], key[|t.bits|..]); }
  }

  /** One edge back up the path. */
  lemma {:induction false} PathUp(t: Tree, path: seq<bool>, b: bool, key: Bits)
    requires Follows(t, path + [b], key)
    ensures Follows(t, path, key) && At(t, path).Node? && At(t, path).Edge(b) == At(t, path + [b])
    ensures LiveAround(t, path + [b]) ==> LiveAround(t, path) && Live(At(t, path).Edge(!b))
    decreases path
  {
    if path == [] {
      assert (path + [b])[1..] == [];
    } else {
      SnocTail(path, b);
      PathUp(t.Edge(path[0]), path[1..], b, key[|t.bits|..]);
    }
  }

  // ----- insertion

  /** `trie_branch_create`: a chain of nodes for 'bits', with the rules at its end. */
  function Branch(bits: Bits, nRules: nat): Tree
    decreases |bits|
  {
    if |bits| <= TRIE_PREFIX_BITS then Node(bits, nRules, Nil, Nil)
    else WithEdge(Node(bits[..TRIE_PREFIX_BITS], 0, Nil, Nil), bits[TRIE_PREFIX_BITS],
                  Branch(bits[TRIE_PREFIX_BITS..], nRules))
  }

  lemma {:induction false} BranchIsChain(bits: Bits, room: nat)
    requires 0 < |bits| <= room
    ensures var t := Branch(bits, 1);
            t.Node? && t.bits <= bits && |t.bits| > 0 && Shape(t, room) && Live(t) && Delta(Nil, t, bits, 1)
    decreases |bits|
  {
    var t := Branch(bits, 1);
    if |bits| > TRIE_PREFIX_BITS {
      var rest := bits[TRIE_PREFIX_BITS..];
      BranchIsChain(rest, room - TRIE_PREFIX_BITS);
      var top := Node(bits[..TRIE_PREFIX_BITS], 0, Nil, Nil);
      assert bits == top.bits + rest;
      DeltaStep(top, bits[TRIE_PREFIX_BITS], Branch(rest, 1), bits, 1);
      assert forall k :: Count(top, k) == 0;
    }
  }

  /** The lower part of a node whose first 'c' bits have moved to a new parent. */
  function Lower(u: Tree, c: nat): Tree
    requires u.Node? && c <= |u.bits|
  {
    u.(bits := u.bits[c..])
  }

  /** A node cut in two 'c' bits down, with 'rest' stored at or beside the cut. */
  function Split(u: Tree, rest: Bits, c: nat): Tree
    requires u.Node? && c < |u.bits| && c <= |rest|
  {
    var top := WithEdge(Node(u.bits[..c], if c == |rest| then 1 else 0, Nil, Nil), u.bits[c], Lower(u, c));
    if c < |rest| then WithEdge(top, !u.bits[c], Branch(rest[c..], 1)) else top
  }

  /** A cut alone stores nothing new. */
  lemma CutDelta(u: Tree, c: nat, key: Bits)
    requires u.Node? && c < |u.bits|
    ensures Delta(u, WithEdge(Node(u.bits[..c], 0, Nil, Nil), u.bits[c], Lower(u, c)), key, 0)
  {
    var t := WithEdge(Node(u.bits[..c], 0, Nil, Nil), u.bits[c], Lower(u, c));
    forall k ensures Count(t, k) == Count(u, k) {
      if u.bits[..c] <= k {
        assert k == u.bits[..c] + k[c..];
        assert u.bits == u.bits[..c] + u.bits[c..];
        assert u.bits <= k <==> u.bits[c..] <= k[c..];
        if u.bits <= k { assert k[c..][|u.bits| - c..] == k[|u.bits|..]; }
      } else {
        assert !(u.bits <= k);
      }
    }
  }

  lemma SplitIsInsertion(u: Tree, rest: Bits, c: nat, room: nat)
    requires u.Node? && Shape(u, room) && Live(u) && 0 < |rest| <= room
    requires c == Common(u.bits, rest) && c < |u.bits|
    ensures var s := Split(u, rest, c); s.Node? && Shape(s, room) && Live(s) && Delta(u, s, rest, 1)
  {
    hide Common, Count;
    CutDelta(u, c, rest);
    var cut := WithEdge(Node(u.bits[..c], 0, Nil, Nil), u.bits[c], Lower(u, c));
    if c < |rest| {
      BranchIsChain(rest[c..], room - c);
      DeltaStep(cut, !u.bits[c], Branch(rest[c..], 1), rest, 1);
    } else {
      RootDelta(cut, 1);
    }
  }

  lemma SplitFits(u: Tree, rest: Bits, b: bool)
    requires u.Node? && FitsEdge(u, b) && rest != [] && rest[0] == b && Common(u.bits, rest) < |u.bits|
    ensures FitsEdge(Split(u, rest, Common(u.bits, rest)), b)
  {
  }

  lemma RootDelta(t: Tree, n: nat)
    requires t.Node?
    ensures Delta(t, t.(nRules := n), t.bits, n - t.nRules)
  {
  }

  // ----- removal

  /** One turn of the pruning loop: what the edge to 't' becomes. */
  function Prune(t: Tree): Tree
    requires t.Node?
  {
    if t.nRules > 0 || (t.e0.Node? && t.e1.Node?) then t
    else
      var next := if t.e0.Node? then t.e0 else t.e1;
      if next.Nil? then Nil
      else if |t.bits| + |next.bits| > TRIE_PREFIX_BITS then t
      else next.(bits := t.bits + next.bits)
  }

  /** Pruning changes neither what is stored nor the shape, and leaves only live leaves. */
  lemma PruneKeeps(t: Tree, room: nat, key: Bits)
    requires t.Node? && Shape(t, room) && Live(t.e0) && Live(t.e1)
    ensures Delta(t, Prune(t), key, 0) && Shape(Prune(t), room) && Live(Prune(t))
    ensures forall b :: FitsEdge(t, b) ==> FitsEdge(Prune(t), b)
  {
    var p := Prune(t);
    if p.Node? && p != t {
      MergeDelta(t, t.e1.Node?, key);
    }
  }

  lemma MergeDelta(t: Tree, b: bool, key: Bits)
    requires t.Node? && t.nRules == 0 && t.Edge(b).Node? && t.Edge(!b).Nil? && t.Edge(b).bits != [] && t.Edge(b).bits[0] == b
    ensures Delta(t, t.Edge(b).(bits := t.bits + t.Edge(b).bits), key, 0)
  {
    var n, next := |t.bits|, t.Edge(b);
    var p := next.(bits := t.bits + next.bits);
    CutDelta(p, n, key);
    assert p.bits[..n] == t.bits && p.bits[n..] == next.bits;
  }
}
