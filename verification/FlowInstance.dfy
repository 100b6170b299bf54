/** `table_instance`: an array of bucket chains over one of the flows' two pairs of links. */
module FlowInstance {
  import opened FlowChains

  /** Arbitrary hash functions: of the words of a key, and of a hash with a seed. */
  datatype Hashes = Hashes(ofWords: seq<Word> -> nat, spread: (nat, nat) -> nat)

  /** The bucket of a hash; the number of buckets is a power of two, so that the mask is a remainder. */
  function Index(h: Hashes, seed: nat, n: nat, hash: nat): (b: nat)
    requires n > 0
    ensures b < n
  {
    h.spread(hash, seed) % n
  }

  function Other(v: Ver): Ver {
    1 - v
  }

  /** Every bucket's head leads through its chain. */
  ghost predicate BucketsIn(m: LinkMap, heads: seq<SwFlow?>, chains: seq<seq<SwFlow>>) {
    |heads| == |chains| && forall b :: 0 <= b < |heads| ==> ChainIn(m, heads[b], chains[b])
  }

  /** The flows on the chains. */
  ghost function OnChains(chains: seq<seq<SwFlow>>): set<SwFlow> {
    set b, f | 0 <= b < |chains| && f in chains[b] :: f
  }

  /** No flow is on two chains. */
  ghost predicate Apart(chains: seq<seq<SwFlow>>) {
    forall b, d, f :: 0 <= b < |chains| && 0 <= d < |chains| && f in chains[b] && f in chains[d] ==> b == d
  }

  /** Adding a flow in front of bucket 'b'. */
  lemma AddToBucket(m: LinkMap, heads: seq<SwFlow?>, chains: seq<seq<SwFlow>>, b: nat, f: SwFlow)
    requires BucketsIn(m, heads, chains) && Apart(chains) && b < |heads| && f !in OnChains(chains)
    ensures var chains' := chains[b := [f] + chains[b]];
            BucketsIn(AddHead(m, heads[b], f), heads[b := f], chains') && Apart(chains') && OnChains(chains') == OnChains(chains) + {f}
  {
    hide AddHead, ChainIn;
    var chains' := chains[b := [f] + chains[b]];
    forall d | 0 <= d < |heads| ensures ChainIn(AddHead(m, heads[b], f), heads[b := f][d], chains'[d]) {
      HeadOf(m, heads[b], chains[b]);
      if d == b { AddHeadChain(m, heads[b], chains[b], f); } else { AddHeadElsewhere(m, heads[b], f, heads[d], chains[d]); }
    }
    forall g ensures g in OnChains(chains') <==> g in OnChains(chains) + {f} {
      if g in OnChains(chains) {
        var d :| 0 <= d < |chains| && g in chains[d];
        assert g in chains'[d];
      }
      assert f in chains'[b];
    }
  }

  lemma HeadOf(m: LinkMap, head: SwFlow?, c: seq<SwFlow>)
    requires ChainIn(m, head, c)
    ensures head != null ==> head in c
    ensures c == [] <==> head == null
  {
  }

  /** Taking the flow in place 'i' out of bucket 'b'. */
  lemma DropFromBucket(m: LinkMap, heads: seq<SwFlow?>, chains: seq<seq<SwFlow>>, b: nat, i: nat)
    requires BucketsIn(m, heads, chains) && Apart(chains) && b < |heads| && i < |chains[b]|
    ensures var f := chains[b][i];
            && f in m
            && var heads' := if m[f].prev == null then heads[b := m[f].next] else heads;
               var chains' := chains[b := chains[b][..i] + chains[b][i + 1..]];
               BucketsIn(Unlink(m, f), heads', chains') && Apart(chains') && OnChains(chains') == OnChains(chains) - {f}
  {
    hide Unlink, ChainIn;
    var c, f := chains[b], chains[b][i];
    var a, e := c[..i], c[i + 1..];
    assert c == a + [f] + e;
    UnlinkChain(m, heads[b], a, f, e);
    var chains' := chains[b := a + e];
    Neighbours(m, heads[b], c, i);
    forall d | 0 <= d < |heads| && d != b ensures ChainIn(Unlink(m, f), heads[d], chains[d]) {
      UnlinkElsewhere(m, heads[d], chains[d], f);
    }
    assert forall g :: g in a + e ==> g in c;
    DropsOne(chains, b, i);
  }

  lemma Neighbours(m: LinkMap, head: SwFlow?, c: seq<SwFlow>, i: nat)
    requires ChainIn(m, head, c) && i < |c|
    ensures c[i] in m && (m[c[i]].next == null || m[c[i]].next in c) && (m[c[i]].prev == null || m[c[i]].prev in c)
    ensures m[c[i]].prev == null <==> i == 0
    ensures c[i] !in c[..i] && c[i] !in c[i + 1..]
  {
  }

  lemma DropsOne(chains: seq<seq<SwFlow>>, b: nat, i: nat)
    requires b < |chains| && i < |chains[b]| && Apart(chains) && chains[b][i] !in chains[b][..i] && chains[b][i] !in chains[b][i + 1..]
    ensures OnChains(chains[b := chains[b][..i] + chains[b][i + 1..]]) == OnChains(chains) - {chains[b][i]}
  {
    var f, c := chains[b][i], chains[b];
    var chains' := chains[b := c[..i] + c[i + 1..]];
    assert c == c[..i] + [f] + c[i + 1..];
    forall g ensures g in OnChains(chains') <==> g in OnChains(chains) - {f} {
      if g in OnChains(chains') {
        var d :| 0 <= d < |chains'| && g in chains'[d];
        assert g in chains[d];
      }
      if g in OnChains(chains) - {f} {
        var d :| 0 <= d < |chains| && g in chains[d];
        assert g in chains'[d];
      }
    }
  }

  class TableInstance {
    const hashes: Hashes
    const seed: nat
    var heads: seq<SwFlow?>
    var nodeVer: Ver
    var keepFlows: bool
    ghost var chains: seq<seq<SwFlow>>

    /** `find_bucket`, as an index. */
    function Bucket(hash: nat): (b: nat)
      requires heads != []
      reads this`heads
      ensures b < |heads|
    {
      Index(hashes, seed, |heads|, hash)
    }

    /** The links of the flows in 'fs' are those of the chains, and the flows are in their buckets. */
    ghost predicate Ok(fs: set<SwFlow>)
      reads this`heads, this`chains, this`nodeVer, fs`next, fs`prev, fs`hash
    {
      && heads != [] && BucketsIn(LinksOf(fs, nodeVer), heads, chains) && Apart(chains)
      && (forall b, f :: 0 <= b < |chains| && f in chains[b] ==> f in fs && Bucket(f.hash) == b)
    }

    ghost function Stored(): set<SwFlow>
      reads this`chains
    {
      OnChains(chains)
    }

    ghost predicate Empty()
      reads this`heads, this`chains
    {
      heads != [] && |chains| == |heads| && forall b :: 0 <= b < |heads| ==> heads[b] == null && chains[b] == []
    }

    lemma EmptyOk(fs: set<SwFlow>)
      requires Empty()
      ensures Ok(fs) && Stored() == {}
    {
    }

    /** `table_instance_alloc`. */
    constructor (hashes: Hashes, seed: nat, nBuckets: nat)
      requires nBuckets > 0
      ensures this.hashes == hashes && this.seed == seed && Empty() && nodeVer == 0 && !keepFlows && |heads| == nBuckets
    {
      this.hashes, this.seed, nodeVer, keepFlows := hashes, seed, 0, false;
      heads := seq(nBuckets, i => null);
      chains := seq(nBuckets, i => []);
    }

    /** `table_instance_insert`. */
    method Insert(f: SwFlow, ghost fs: set<SwFlow>)
      requires Ok(fs) && f in fs && f !in Stored()
      modifies this`heads, this`chains, fs`next, fs`prev
      ensures Ok(fs) && Stored() == old(Stored()) + {f} && |heads| == |old(heads)|
      ensures LinksOf(fs, Other(nodeVer)) == old(LinksOf(fs, Other(nodeVer)))
    {
      hide ChainIn, AddHead, OnChains, Apart, LinksOf, Index;
      var b := Bucket(f.hash);
      ghost var m := LinksOf(fs, nodeVer);
      HeadOf(m, heads[b], chains[b]);
      AddToBucket(m, heads, chains, b, f);
      InChain(chains, b);
      HlistAddHead(f, heads[b], nodeVer, fs);
      heads, chains := heads[b := f], chains[b := [f] + chains[b]];
    }

    /** The unlinking in `ovs_flow_tbl_remove` and `table_instance_destroy`. */
    method Remove(f: SwFlow, ghost fs: set<SwFlow>)
      requires Ok(fs) && f in Stored()
      modifies this`heads, this`chains, fs`next, fs`prev
      ensures Ok(fs) && Stored() == old(Stored()) - {f} && |heads| == |old(heads)|
      ensures LinksOf(fs, Other(nodeVer)) == old(LinksOf(fs, Other(nodeVer)))
      ensures f.next == old(f.next)
      ensures forall d :: 0 <= d < |heads| && d != Bucket(f.hash) ==> heads[d] == old(heads)[d]
    {
      hide ChainIn, Unlink, Apart, LinksOf, OnChains, Index;
      ghost var d, i := FindOnChains(chains, f);
      var b := Bucket(f.hash);
      ghost var m := LinksOf(fs, nodeVer);
      LinkAt(fs, nodeVer, f);
      DropFromBucket(m, heads, chains, b, i);
      LinksInside(m, heads[b], chains[b], i);
      ghost var chains' := chains[b := chains[b][..i] + chains[b][i + 1..]];
      assert forall g :: g in chains[b][..i] + chains[b][i + 1..] ==> g in chains[b];
      var next, first := f.next[nodeVer], f.prev[nodeVer] == null;
      HlistDel(f, nodeVer, fs);
      if first {
        heads := heads[b := next];
      }
      chains := chains';
    }
  }

  /** `hlist_del_rcu`, except for the head. */
  method HlistDel(f: SwFlow, v: Ver, ghost fs: set<SwFlow>)
    requires f in fs && (f.next[v] != null ==> f.next[v] in fs) && (f.prev[v] != null ==> f.prev[v] in fs)
    requires f.next[v] != f && f.prev[v] != f && (f.next[v] != null ==> f.next[v] != f.prev[v])
    modifies fs`next, fs`prev
    ensures LinksOf(fs, v) == Unlink(old(LinksOf(fs, v)), f)
    ensures LinksOf(fs, Other(v)) == old(LinksOf(fs, Other(v)))
    ensures f.next == old(f.next) && f.prev == old(f.prev)
  {
    hide Unlink;
    ghost var m := LinksOf(fs, v);
    var next, prev := f.next[v], f.prev[v];
    if prev != null {
      prev.next := prev.next[v := next];
    }
    if next != null {
      next.prev := next.prev[v := prev];
    }
    forall g | g in fs ensures Link(g.next[Other(v)], g.prev[Other(v)]) == old(Link(g.next[Other(v)], g.prev[Other(v)])) {}
    Dropped(m, LinksOf(fs, v), f);
  }

  lemma Dropped(m: LinkMap, m': LinkMap, f: SwFlow)
    requires f in m && m'.Keys == m.Keys && m[f].next != f && m[f].prev != f && (m[f].next != null ==> m[f].next != m[f].prev)
    requires forall g :: g in m && g != m[f].next && g != m[f].prev ==> m'[g] == m[g]
    requires m[f].next != null ==> m[f].next in m && m'[m[f].next] == m[m[f].next].(prev := m[f].prev)
    requires m[f].prev != null ==> m[f].prev in m && m'[m[f].prev] == m[m[f].prev].(next := m[f].next)
    ensures m' == Unlink(m, f)
  {
  }

  /** `hlist_add_head_rcu`, except for the head itself. */
  method HlistAddHead(f: SwFlow, head: SwFlow?, v: Ver, ghost fs: set<SwFlow>)
    requires f in fs && f != head && (head != null ==> head in fs)
    modifies fs`next, fs`prev
    ensures LinksOf(fs, v) == AddHead(old(LinksOf(fs, v)), head, f)
    ensures LinksOf(fs, Other(v)) == old(LinksOf(fs, Other(v)))
  {
    hide AddHead;
    ghost var m := LinksOf(fs, v);
    f.next, f.prev := f.next[v := head], f.prev[v := null];
    if head != null {
      head.prev := head.prev[v := f];
    }
    forall g | g in fs ensures Link(g.next[Other(v)], g.prev[Other(v)]) == old(Link(g.next[Other(v)], g.prev[Other(v)])) {}
    Added(m, LinksOf(fs, v), head, f);
  }

  lemma LinkAt(fs: set<SwFlow>, v: Ver, f: SwFlow)
    requires f in fs
    ensures LinksOf(fs, v).Keys == fs && LinksOf(fs, v)[f] == Link(f.next[v], f.prev[v])
  {
  }

  lemma FindOnChains(chains: seq<seq<SwFlow>>, f: SwFlow) returns (b: nat, i: nat)
    requires f in OnChains(chains)
    ensures b < |chains| && i < |chains[b]| && chains[b][i] == f
  {
    b :| 0 <= b < |chains| && f in chains[b];
    i :| 0 <= i < |chains[b]| && chains[b][i] == f;
  }

  lemma LinksInside(m: LinkMap, head: SwFlow?, c: seq<SwFlow>, i: nat)
    requires ChainIn(m, head, c) && i < |c|
    ensures c[i] in m
    ensures var l := m[c[i]];
            && (l.next != null ==> l.next in m) && (l.prev != null ==> l.prev in m)
            && l.next != c[i] && l.prev != c[i] && (l.next != null ==> l.next != l.prev)
  {
    assert i + 1 < |c| ==> c[i + 1] in m;
    assert i > 0 ==> c[i - 1] in m;
  }

  lemma InChain(chains: seq<seq<SwFlow>>, b: nat)
    requires b < |chains|
    ensures forall f :: f in chains[b] ==> f in OnChains(chains)
  {
  }

  lemma Added(m: LinkMap, m': LinkMap, head: SwFlow?, f: SwFlow)
    requires f in m && f != head && m'.Keys == m.Keys && m'[f] == Link(head, null)
    requires forall g :: g in m && g != f && g != head ==> m'[g] == m[g]
    requires head != null ==> head in m && m'[head] == m[head].(prev := f)
    ensures m' == AddHead(m, head, f)
  {
  }

  // ----- rehashing

  /** The inner loop of `flow_table_copy_flows`: it walks the old links while it sets the new. */
  method CopyChain(src: TableInstance, dst: TableInstance, b: nat, ghost fs: set<SwFlow>)
    requires src != dst && src.Ok(fs) && dst.Ok(fs) && dst.nodeVer == Other(src.nodeVer) && b < |src.heads|
    requires forall f :: f in src.chains[b] ==> f !in dst.Stored()
    modifies dst`heads, dst`chains, fs`next, fs`prev
    ensures dst.Ok(fs) && LinksOf(fs, src.nodeVer) == old(LinksOf(fs, src.nodeVer))
    ensures dst.Stored() == old(dst.Stored()) + SetOf(src.chains[b]) && |dst.heads| == |old(dst.heads)|
  {
    hide OnChains, Apart, LinksOf, ChainIn, TableInstance.Ok, TableInstance.Stored;
    ChainsOf(src, fs, b);
    ghost var c, m, k := src.chains[b], LinksOf(fs, src.nodeVer), 0;
    var f := src.heads[b];
    ChainStart(m, f, c);
    assert SetOf(c[..0]) == {};
    while f != null
      invariant k <= |c| && f == Nth(c, k) && dst.Ok(fs) && LinksOf(fs, src.nodeVer) == m
      invariant dst.Stored() == old(dst.Stored()) + SetOf(c[..k]) && |dst.heads| == |old(dst.heads)|
      decreases |c| - k
    {
      ChainNext(m, src.heads[b], c, k);
      LinkAt(fs, src.nodeVer, f);
      dst.Insert(f, fs);
      LinkAt(fs, src.nodeVer, f);
      f := f.next[src.nodeVer];
      k := k + 1;
    }
    assert c[..k] == c;
  }

  ghost function SetOf(c: seq<SwFlow>): set<SwFlow> {
    set f | f in c
  }

  lemma ChainsOf(t: TableInstance, fs: set<SwFlow>, b: nat)
    requires t.Ok(fs) && b < |t.heads|
    ensures |t.chains| == |t.heads| && ChainIn(LinksOf(fs, t.nodeVer), t.heads[b], t.chains[b])
    ensures forall f :: f in t.chains[b] ==> f in fs
  {
  }

  lemma ChainStart(m: LinkMap, head: SwFlow?, c: seq<SwFlow>)
    requires ChainIn(m, head, c)
    ensures head == Nth(c, 0)
  {
  }

  lemma ChainNext(m: LinkMap, head: SwFlow?, c: seq<SwFlow>, k: nat)
    requires ChainIn(m, head, c) && k < |c|
    ensures c[k] in m && m[c[k]].next == Nth(c, k + 1)
    ensures c[k] !in c[..k] && SetOf(c[..k + 1]) == SetOf(c[..k]) + {c[k]}
  {
    assert c[..k + 1] == c[..k] + [c[k]];
  }

  /** `flow_table_copy_flows`: the readers of 'src' see no change. */
  method CopyFlows(src: TableInstance, dst: TableInstance, ghost fs: set<SwFlow>)
    requires src != dst && src.Ok(fs) && dst.Empty()
    modifies src`keepFlows, dst`nodeVer, dst`heads, dst`chains, fs`next, fs`prev
    ensures src.Ok(fs) && src.keepFlows && LinksOf(fs, src.nodeVer) == old(LinksOf(fs, src.nodeVer))
    ensures dst.Ok(fs) && dst.nodeVer == Other(src.nodeVer) && dst.Stored() == src.Stored() && |dst.heads| == |old(dst.heads)|
  {
    hide OnChains, LinksOf, BucketsIn;
    ChainCount(src, fs);
    dst.nodeVer := Other(src.nodeVer);
    dst.EmptyOk(fs);
    NoChains(src.chains);
    for b := 0 to |src.heads|
      invariant dst.Ok(fs) && LinksOf(fs, src.nodeVer) == old(LinksOf(fs, src.nodeVer)) && |dst.heads| == |old(dst.heads)|
      invariant dst.nodeVer == Other(src.nodeVer) && dst.Stored() == OnChains(src.chains[..b])
    {
      ChainsOf(src, fs, b);
      NextChain(src.chains, b);
      CopyChain(src, dst, b, fs);
    }
    assert src.chains[..|src.heads|] == src.chains;
    src.keepFlows := true;
  }

  lemma NoChains(chains: seq<seq<SwFlow>>)
    ensures OnChains(chains[..0]) == {}
  {
  }

  lemma ChainCount(t: TableInstance, fs: set<SwFlow>)
    requires t.Ok(fs)
    ensures |t.chains| == |t.heads|
  {
  }

  lemma NextChain(chains: seq<seq<SwFlow>>, b: nat)
    requires b < |chains| && Apart(chains)
    ensures OnChains(chains[..b + 1]) == OnChains(chains[..b]) + SetOf(chains[b])
    ensures forall f :: f in chains[b] ==> f !in OnChains(chains[..b])
  {
    var p, q := chains[..b], chains[..b + 1];
    forall f ensures f in OnChains(q) <==> f in OnChains(p) + SetOf(chains[b]) {
      if f in OnChains(p) {
        var d :| 0 <= d < |p| && f in p[d];
        assert f in q[d];
      }
      if f in chains[b] { assert f in q[b]; }
      if f in OnChains(q) && f !in chains[b] {
        var d :| 0 <= d < |q| && f in q[d];
        assert f in p[d];
      }
    }
    assert forall d :: 0 <= d < b ==> p[d] == chains[d];
  }

  // ----- dumping

  /** The flows from bucket 'b' on, the first 'skip' of that bucket left out, in the order of a dump. */
  function Remaining(chains: seq<seq<SwFlow>>, b: nat, skip: nat): seq<SwFlow>
    decreases |chains| - b
  {
    if b >= |chains| then [] else chains[b][if skip <= |chains[b]| then skip else |chains[b]|..] + Remaining(chains, b + 1, 0)
  }

  /** `ovs_flow_tbl_dump_next`: the next flow, and the place after it. */
  method DumpNext(t: TableInstance, bucket: nat, last: nat, ghost fs: set<SwFlow>) returns (f: SwFlow?, bucket': nat, last': nat)
    requires t.Ok(fs)
    ensures f == null <==> Remaining(t.chains, bucket, last) == []
    ensures f != null ==> Remaining(t.chains, bucket, last) == [f] + Remaining(t.chains, bucket', last')
  {
    hide ChainIn, LinksOf, OnChains, Apart, TableInstance.Ok;
    ghost var m := LinksOf(fs, t.nodeVer);
    bucket', last' := bucket, last;
    ChainCount(t, fs);
    while bucket' < |t.heads|
      invariant Remaining(t.chains, bucket', last') == Remaining(t.chains, bucket, last)
      invariant |t.chains| == |t.heads|
    {
      ChainsOf(t, fs, bucket');
      ghost var c := t.chains[bucket'];
      var i := 0;
      f := t.heads[bucket'];
      ChainStart(m, f, c);
      while f != null && i < last'
        invariant i <= |c| && i <= last' && f == Nth(c, i)
        decreases |c| - i
      {
        ChainNext(m, t.heads[bucket'], c, i);
        LinkAt(fs, t.nodeVer, f);
        f := f.next[t.nodeVer];
        i := i + 1;
      }
      if f != null {
        last' := i + 1;
        return;
      }
      bucket', last' := bucket' + 1, 0;
    }
    f := null;
  }

  ghost predicate From(chains: seq<seq<SwFlow>>, b: nat, f: SwFlow) {
    exists d :: b <= d < |chains| && f in chains[d]
  }

  /** A dump from the start sees every flow on the chains, and none twice. */
  lemma {:induction false} DumpSeesAll(chains: seq<seq<SwFlow>>, b: nat)
    requires b <= |chains| && Apart(chains) && forall d, i, j :: 0 <= d < |chains| && 0 <= i < j < |chains[d]| ==> chains[d][i] != chains[d][j]
    ensures var r := Remaining(chains, b, 0);
            && (forall i, j :: 0 <= i < j < |r| ==> r[i] != r[j])
            && (forall i :: 0 <= i < |r| ==> From(chains, b, r[i]))
            && (forall d, k :: b <= d < |chains| && 0 <= k < |chains[d]| ==> chains[d][k] in r)
    decreases |chains| - b
  {
    if b < |chains| {
      DumpSeesAll(chains, b + 1);
      var c, q, r := chains[b], Remaining(chains, b + 1, 0), Remaining(chains, b, 0);
      assert c[0..] == c;
      assert r == c + q;
      assert forall i :: 0 <= i < |q| ==> From(chains, b + 1, q[i]);
      forall j | 0 <= j < |q| ensures q[j] !in c {
        assert From(chains, b + 1, q[j]);
      }
      forall i, j | 0 <= i < j < |r| ensures r[i] != r[j] {
        assert i < |c| <= j ==> r[i] in c && r[j] == q[j - |c|];
      }
    }
  }
}
