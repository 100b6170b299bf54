/**
 The flows of `datapath/flow_table.c` and the bucket chains that link them: each flow
 has two pairs of links, so that two table instances can share their flows.
 */
module FlowChains {
  type Word = bv64
  type Key = seq<Word>

  /** Which of a flow's two pairs of links an instance uses. */
  type Ver = v: nat | v < 2

  /** `sw_flow_mask`: the words from 'start' up to 'end' that it looks at, and their bits. */
  class SwFlowMask {
    const start: nat
    const end: nat
    const key: Key
    var refCount: nat

    constructor (start: nat, end: nat, key: Key)
      ensures this.start == start && this.end == end && this.key == key && refCount == 1
    {
      this.start, this.end, this.key, refCount := start, end, key, 1;
    }
  }

  /** The two entries of `hash_node`, each a link forward or backward. */
  type Links = s: seq<SwFlow?> | |s| == 2 witness [null, null]

  class SwFlow {
    var key: Key
    var unmasked: Key
    var hash: nat
    var mask: SwFlowMask?
    var next: Links
    var prev: Links

    constructor (key: Key, unmasked: Key)
      ensures this.key == key && this.unmasked == unmasked && mask == null
    {
      this.key, this.unmasked, hash, mask := key, unmasked, 0, null;
      next, prev := [null, null], [null, null];
    }
  }

  // ----- chains over a snapshot of the links

  datatype Link = Link(next: SwFlow?, prev: SwFlow?)

  type LinkMap = map<SwFlow, Link>

  /** The links of one version. */
  ghost function LinksOf(fs: set<SwFlow>, v: Ver): LinkMap
    reads fs`next, fs`prev
  {
    map f | f in fs :: Link(f.next[v], f.prev[v])
  }

  function Nth(c: seq<SwFlow>, i: int): SwFlow? {
    if 0 <= i < |c| then c[i] else null
  }

  /** 'head' leads through exactly the flows of 'c', in both directions. */
  ghost predicate ChainIn(m: LinkMap, head: SwFlow?, c: seq<SwFlow>) {
    && head == Nth(c, 0)
    && (forall i :: 0 <= i < |c| ==> c[i] in m && m[c[i]] == Link(Nth(c, i + 1), Nth(c, i - 1)))
    && (forall i, j :: 0 <= i < j < |c| ==> c[i] != c[j])
  }

  /** `hlist_add_head_rcu`. */
  function AddHead(m: LinkMap, head: SwFlow?, f: SwFlow): LinkMap {
    var m' := if head != null && head in m then m[head := m[head].(prev := f)] else m;
    m'[f := Link(head, null)]
  }

  lemma AddHeadChain(m: LinkMap, head: SwFlow?, c: seq<SwFlow>, f: SwFlow)
    requires ChainIn(m, head, c) && f !in c
    ensures ChainIn(AddHead(m, head, f), f, [f] + c)
  {
    var c', m' := [f] + c, AddHead(m, head, f);
    forall i | 0 <= i < |c'| ensures c'[i] in m' && m'[c'[i]] == Link(Nth(c', i + 1), Nth(c', i - 1)) {
      if i > 0 { assert c'[i] == c[i - 1] && c[i - 1] in m; }
    }
  }

  lemma AddHeadElsewhere(m: LinkMap, head: SwFlow?, f: SwFlow, head2: SwFlow?, c2: seq<SwFlow>)
    requires ChainIn(m, head2, c2) && f !in c2 && (head != null ==> head !in c2)
    ensures ChainIn(AddHead(m, head, f), head2, c2)
  {
  }

  /** `hlist_del_rcu`: the neighbours skip 'f', which keeps its own links. */
  function Unlink(m: LinkMap, f: SwFlow): LinkMap
    requires f in m
  {
    var l := m[f];
    var m' := if l.next != null && l.next in m then m[l.next := m[l.next].(prev := l.prev)] else m;
    if l.prev != null && l.prev in m' then m'[l.prev := m'[l.prev].(next := l.next)] else m'
  }

  lemma UnlinkChain(m: LinkMap, head: SwFlow?, a: seq<SwFlow>, f: SwFlow, b: seq<SwFlow>)
    requires ChainIn(m, head, a + [f] + b)
    ensures f in m && m[f] == Link(Nth(b, 0), Nth(a, |a| - 1))
    ensures ChainIn(Unlink(m, f), if a == [] then Nth(b, 0) else head, a + b)
  {
    hide Unlink, Nth;
    MiddleLink(m, head, a, f, b);
    var m', c' := Unlink(m, f), a + b;
    forall i | 0 <= i < |c'| ensures c'[i] in m' && m'[c'[i]] == Link(Nth(c', i + 1), Nth(c', i - 1)) {
      if i < |a| { BeforeGap(m, head, a, f, b, i); } else { AfterGap(m, head, a, f, b, i); }
    }
    WithoutMiddle(m, head, a, f, b);
  }

  lemma WithoutMiddle(m: LinkMap, head: SwFlow?, a: seq<SwFlow>, f: SwFlow, b: seq<SwFlow>)
    requires ChainIn(m, head, a + [f] + b)
    ensures (if a == [] then Nth(b, 0) else head) == Nth(a + b, 0)
    ensures forall i, j :: 0 <= i < j < |a + b| ==> (a + b)[i] != (a + b)[j]
  {
    hide ChainIn;
    ChainEnds(m, head, a + [f] + b);
    StillDistinct(a, f, b);
    assert a != [] ==> (a + [f] + b)[0] == a[0];
  }

  lemma ChainEnds(m: LinkMap, head: SwFlow?, c: seq<SwFlow>)
    requires ChainIn(m, head, c)
    ensures head == Nth(c, 0) && forall i, j :: 0 <= i < j < |c| ==> c[i] != c[j]
  {
  }

  lemma StillDistinct(a: seq<SwFlow>, f: SwFlow, b: seq<SwFlow>)
    requires forall i, j :: 0 <= i < j < |a + [f] + b| ==> (a + [f] + b)[i] != (a + [f] + b)[j]
    ensures forall i, j :: 0 <= i < j < |a + b| ==> (a + b)[i] != (a + b)[j]
  {
    var c, c' := a + [f] + b, a + b;
    forall i: nat, j: nat | i < j < |c'| ensures c'[i] != c'[j] {
      assert c'[i] == c[if i < |a| then i else i + 1] && c'[j] == c[if j < |a| then j else j + 1];
    }
  }

  lemma MiddleLink(m: LinkMap, head: SwFlow?, a: seq<SwFlow>, f: SwFlow, b: seq<SwFlow>)
    requires ChainIn(m, head, a + [f] + b)
    ensures f in m && m[f] == Link(Nth(b, 0), Nth(a, |a| - 1))
  {
    assert (a + [f] + b)[|a|] == f;
  }

  lemma BeforeGap(m: LinkMap, head: SwFlow?, a: seq<SwFlow>, f: SwFlow, b: seq<SwFlow>, i: nat)
    requires ChainIn(m, head, a + [f] + b) && f in m && m[f] == Link(Nth(b, 0), Nth(a, |a| - 1)) && i < |a|
    ensures a[i] in Unlink(m, f) && Unlink(m, f)[a[i]] == Link(Nth(a + b, i + 1), Nth(a + b, i - 1))
  {
    var c := a + [f] + b;
    assert c[i] == a[i] && c[i] in m;
    assert b != [] ==> c[|a| + 1] == b[0];
    assert i + 1 < |a| ==> c[|a| - 1] == a[|a| - 1];
    assert b != [] ==> a[i] != b[0];
  }

  lemma AfterGap(m: LinkMap, head: SwFlow?, a: seq<SwFlow>, f: SwFlow, b: seq<SwFlow>, i: nat)
    requires ChainIn(m, head, a + [f] + b) && f in m && m[f] == Link(Nth(b, 0), Nth(a, |a| - 1)) && |a| <= i < |a + b|
    ensures (a + b)[i] in Unlink(m, f) && Unlink(m, f)[(a + b)[i]] == Link(Nth(a + b, i + 1), Nth(a + b, i - 1))
  {
    var c := a + [f] + b;
    var x := (a + b)[i];
    assert c[i + 1] == x && x in m;
    assert a != [] ==> c[|a| - 1] == a[|a| - 1] && a[|a| - 1] != x;
    assert b[0] == c[|a| + 1];
  }

  lemma UnlinkElsewhere(m: LinkMap, head: SwFlow?, c: seq<SwFlow>, f: SwFlow)
    requires ChainIn(m, head, c) && f in m
    requires (m[f].next == null || m[f].next !in c) && (m[f].prev == null || m[f].prev !in c)
    ensures ChainIn(Unlink(m, f), head, c)
  {
  }
}
