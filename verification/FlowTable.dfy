/** `flow_table`: lookup by mask, insertion with growth and rehashing, removal, flush. */
module FlowTableModel {
  import opened FlowChains
  import opened FlowInstance
  import opened FlowMasks

  const TBL_MIN_BUCKETS: nat := 1024

  /** `flow_hash` of a key on a mask's range. */
  function FlowHash(h: Hashes, key: Key, start: nat, end: nat): nat
    requires start <= end <= |key|
  {
    h.ofWords(key[start..end])
  }

  /** A stored flow: masked by its mask, and hashed. */
  ghost predicate FlowOk(h: Hashes, n: nat, f: SwFlow)
    reads f`key, f`unmasked, f`hash, f`mask
  {
    && |f.key| == n && |f.unmasked| == n && f.mask != null && MaskOk(n, f.mask)
    && Masked(f.key, f.unmasked, SpecOf(f.mask))
    && f.hash == FlowHash(h, f.key, f.mask.start, f.mask.end)
  }

  ghost predicate FlowsOk(h: Hashes, n: nat, fs: set<SwFlow>)
    reads fs`key, fs`unmasked, fs`hash, fs`mask
  {
    forall f :: f in fs ==> FlowOk(h, n, f)
  }

  /** The flow is for packets with this key: the key under the flow's mask is the flow's key. */
  ghost predicate Matches(f: SwFlow, key: Key)
    reads f`key, f`mask
  {
    f.mask != null && Masked(f.key, key, SpecOf(f.mask))
  }

  /** No two flows have the same mask and masked key. */
  ghost predicate Unique(fs: set<SwFlow>)
    reads fs`key, fs`unmasked, fs`mask
  {
    forall f, g :: f in fs && g in fs && f.mask == g.mask && Matches(f, g.unmasked) ==> f == g
  }

  class FlowTable {
    const hashes: Hashes
    const keyWords: nat
    const rehashInterval: nat
    var ti: TableInstance
    var maskList: seq<SwFlowMask>
    var count: nat
    var lastRehash: nat
    /** The flows in the table. */
    ghost var flows: set<SwFlow>

    ghost predicate Valid()
      reads this, ti, maskList, flows
    {
      && ti.Ok(flows) && ti.Stored() == flows && ti.hashes == hashes && !ti.keepFlows
      && FlowsOk(hashes, keyWords, flows)
      && MasksOk(keyWords, maskList, flows)
      && Unique(flows)
      && count == |flows|
    }

    /** `ovs_flow_tbl_init`. */
    constructor (hashes: Hashes, keyWords: nat, rehashInterval: nat, seed: nat, now: nat)
      ensures Valid() && flows == {} && this.hashes == hashes && this.keyWords == keyWords && fresh(ti) && maskList == []
      ensures |ti.heads| == TBL_MIN_BUCKETS && lastRehash == now && this.rehashInterval == rehashInterval
    {
      this.hashes, this.keyWords, this.rehashInterval, maskList, count, lastRehash, flows := hashes, keyWords, rehashInterval, [], 0, now, {};
      var t := new TableInstance(hashes, seed, TBL_MIN_BUCKETS);
      ti := t;
      new;
      ti.EmptyOk({});
    }

    /** `masked_flow_lookup`. */
    method MaskedLookup(key: Key, mask: SwFlowMask) returns (f: SwFlow?)
      requires Valid() && |key| == keyWords && MaskOk(keyWords, mask)
      ensures f != null ==> f in flows && f.mask == mask && Matches(f, key)
      ensures f == null ==> forall g :: g in flows && g.mask == mask ==> !Matches(g, key)
    {
      hide ChainIn, LinksOf, OnChains, Apart, BucketsIn, Unique, MasksOk, FlowOk, Masked, Matches, TableInstance.Ok, TableInstance.Stored;
      var masked := MaskKey(key, key, SpecOf(mask));
      var hash := FlowHash(hashes, masked, mask.start, mask.end);
      HasBuckets(ti, flows);
      var b := ti.Bucket(hash);
      f := FindInBucket(key, mask, masked, hash, b);
      forall g | g in flows && g.mask == mask && Matches(g, key) ensures g in ti.chains[b] {
        TestIsMatch(hashes, keyWords, g, key, masked);
        InBucket(ti, flows, g);
      }
    }

    /** The walk along one bucket. */
    method FindInBucket(key: Key, mask: SwFlowMask, masked: Key, hash: nat, b: nat) returns (f: SwFlow?)
      requires Valid() && |key| == |masked| == keyWords && MaskOk(keyWords, mask) && b < |ti.heads| == |ti.chains|
      requires Masked(masked, key, SpecOf(mask)) && hash == FlowHash(hashes, masked, mask.start, mask.end)
      ensures f != null ==> f in flows && f.mask == mask && Matches(f, key)
      ensures f == null ==> forall g :: g in ti.chains[b] ==> !(g in flows && g.mask == mask && Matches(g, key))
    {
      hide ChainIn, LinksOf, OnChains, Apart, BucketsIn, Unique, MasksOk, FlowOk, Masked, Matches, TableInstance.Ok, TableInstance.Stored;
      var v := ti.nodeVer;
      ChainsOf(ti, flows, b);
      ghost var c, m, k := ti.chains[b], LinksOf(flows, v), 0;
      f := ti.heads[b];
      ChainStart(m, f, c);
      while f != null
        invariant k <= |c| && f == Nth(c, k)
        invariant forall i :: 0 <= i < k ==> !(c[i].mask == mask && Matches(c[i], key))
        decreases |c| - k
      {
        assert c[k] in c;
        if f.mask == mask { TestIsMatch(hashes, keyWords, f, key, masked); }
        if f.mask == mask && f.hash == hash {
          var same := CmpKey(f.key, masked, mask.start, mask.end);
          if same {
            return;
          }
        }
        ChainNext(m, ti.heads[b], c, k);
        LinkAt(flows, v, f);
        f := f.next[v];
        k := k + 1;
      }
    }

    /** `ovs_flow_tbl_lookup_stats`: a matching flow under the first mask that has one. */
    method Lookup(key: Key) returns (f: SwFlow?, maskHits: nat)
      requires Valid() && |key| == keyWords
      ensures f == null <==> forall g :: g in flows ==> !Matches(g, key)
      ensures f != null ==> f in flows && Matches(f, key) && 0 < maskHits <= |maskList| && maskList[maskHits - 1] == f.mask
      ensures f == null ==> maskHits == |maskList|
      ensures forall i, g :: 0 <= i < maskHits - 1 && i < |maskList| && g in flows && g.mask == maskList[i] ==> !Matches(g, key)
    {
      hide TableInstance.Ok, TableInstance.Stored, Unique, FlowOk, Matches, SameMask;
      maskHits := 0;
      while maskHits < |maskList|
        invariant maskHits <= |maskList|
        invariant forall i, g :: 0 <= i < maskHits && g in flows && g.mask == maskList[i] ==> !Matches(g, key)
      {
        var mask := maskList[maskHits];
        maskHits := maskHits + 1;
        f := MaskedLookup(key, mask);
        if f != null {
          return;
        }
      }
      f := null;
    }

    /** `flow_mask_insert`: 'f' gets a mask like 'spec', shared if there is one. */
    method MaskInsert(f: SwFlow, spec: MaskSpec, mem: bool) returns (ok: bool)
      requires MasksOk(keyWords, maskList, flows) && SpecOk(keyWords, spec) && f !in flows
      modifies this`maskList, f`mask, maskList`refCount
      ensures ok <==> mem || exists m :: m in old(maskList) && SameMask(m, spec)
      ensures ok ==> MasksOk(keyWords, maskList, flows + {f}) && f.mask != null && SameMask(f.mask, spec) && MaskOk(keyWords, f.mask)
      ensures ok ==> maskList == if f.mask in old(maskList) then old(maskList) else [f.mask] + old(maskList)
      ensures !ok ==> MasksOk(keyWords, maskList, flows) && maskList == old(maskList)
    {
      hide SameMask, MasksDistinct, Users;
      AllOk(keyWords, maskList);
      var mask := MaskFind(keyWords, maskList, spec);
      if mask == null {
        if !mem {
          return false;
        }
        var m := new SwFlowMask(spec.start, spec.end, spec.key);
        NewMaskDistinct(keyWords, maskList, m, spec);
        f.mask := m;
        MaskLikeItself(m, spec);
        NoUsers(flows, maskList, m);
        forall x | x in [m] + maskList ensures x.refCount == |Users(flows + {f}, x)| { UsersJoin(flows, f, x); }
        maskList := [m] + maskList;
      } else {
        ghost var masks := maskList;
        mask.refCount := mask.refCount + 1;
        f.mask := mask;
        forall x | x in masks ensures x.refCount == |Users(flows + {f}, x)| { UsersJoin(flows, f, x); }
      }
      ok := true;
    }

    /** The start of `ovs_flow_tbl_insert`: a mask and a hash for a flow that is not linked yet. */
    method PrepareFlow(f: SwFlow, spec: MaskSpec, mem: bool) returns (ok: bool)
      requires FlowsOk(hashes, keyWords, flows) && MasksOk(keyWords, maskList, flows) && Unique(flows)
      requires f !in flows && SpecOk(keyWords, spec) && KeyUnder(keyWords, f.key, f.unmasked, spec) && NoTwin(flows, f.unmasked, spec)
      modifies this`maskList, maskList`refCount, f`mask, f`hash
      ensures ok <==> mem || exists m :: m in old(maskList) && SameMask(m, spec)
      ensures ok ==> FlowsOk(hashes, keyWords, flows + {f}) && MasksOk(keyWords, maskList, flows + {f}) && Unique(flows + {f})
      ensures ok ==> f.mask != null && SameMask(f.mask, spec)
      ensures !ok ==> MasksOk(keyWords, maskList, flows) && maskList == old(maskList)
    {
      hide SameMask, MasksOk, Masked, FlowOk, Matches, Unique, KeyUnder, NoTwin;
      ok := MaskInsert(f, spec, mem);
      if ok {
        KeyFits(keyWords, f, spec);
        f.hash := FlowHash(hashes, f.key, f.mask.start, f.mask.end);
        NewFlowOk(hashes, keyWords, f, spec);
        UniqueMore(hashes, keyWords, flows, f, spec);
      }
    }

    /** The first half of `ovs_flow_tbl_insert`: mask, hash, bucket and count. */
    method InsertFlow(f: SwFlow, spec: MaskSpec, mem: bool) returns (ok: bool)
      requires Valid() && f !in flows && SpecOk(keyWords, spec) && KeyUnder(keyWords, f.key, f.unmasked, spec) && NoTwin(flows, f.unmasked, spec)
      modifies this`maskList, this`count, this`flows, ti`heads, ti`chains, maskList`refCount
      modifies f`mask, f`hash, f`next, f`prev, flows`next, flows`prev
      ensures Valid() && flows == old(flows) + (if ok then {f} else {}) && |ti.heads| == |old(ti.heads)|
      ensures ok <==> mem || exists m :: m in old(maskList) && SameMask(m, spec)
      ensures ok ==> f.mask != null && SameMask(f.mask, spec)
    {
      hide TableInstance.Ok, TableInstance.Stored, SameMask, MasksOk, FlowsOk, Unique, KeyUnder, NoTwin;
      ok := PrepareFlow(f, spec, mem);
      if ok {
        AddToInstance(ti, f, flows);
        assert FlowsOk(hashes, keyWords, flows + {f}) && MasksOk(keyWords, maskList, flows + {f}) && Unique(flows + {f});
        flows, count := flows + {f}, count + 1;
      } else {
        assert ti.Ok(flows) && ti.Stored() == flows && FlowsOk(hashes, keyWords, flows) && Unique(flows);
        assert flows == old(flows) + {};
      }
    }

    /**
     `table_instance_rehash` and the switch to the new instance.  A reader of the old
     instance goes on finding every flow along unchanged chains.
     */
    method Rehash(nBuckets: nat, seed: nat, now: nat)
      requires Valid() && nBuckets > 0
      modifies this`ti, this`lastRehash, ti`keepFlows, flows`next, flows`prev
      ensures Valid() && fresh(ti) && lastRehash == now && |ti.heads| == nBuckets
      ensures old(ti).Ok(flows) && old(ti).Stored() == flows && old(ti).keepFlows
      ensures LinksOf(flows, old(ti.nodeVer)) == old(LinksOf(flows, ti.nodeVer))
    {
      hide TableInstance.Ok, TableInstance.Stored, MasksOk, FlowsOk, Unique, LinksOf, TableInstance.Empty;
      var t := new TableInstance(hashes, seed, nBuckets);
      CopyFlows(ti, t, flows);
      assert FlowsOk(hashes, keyWords, flows) && MasksOk(keyWords, maskList, flows) && Unique(flows);
      ti, lastRehash := t, now;
    }

    /**
     `ovs_flow_tbl_insert`.  It fails only for want of memory for a mask; 'tableMem' says
     whether there is memory for a new instance.
     */
    method Insert(f: SwFlow, spec: MaskSpec, mem: bool, tableMem: bool, seed: nat, now: nat) returns (ok: bool)
      requires Valid() && f !in flows && SpecOk(keyWords, spec) && KeyUnder(keyWords, f.key, f.unmasked, spec) && NoTwin(flows, f.unmasked, spec)
      modifies this, ti, maskList`refCount, f`mask, f`hash, f`next, f`prev, flows`next, flows`prev
      ensures Valid() && flows == old(flows) + (if ok then {f} else {})
      ensures ok <==> mem || exists m :: m in old(maskList) && SameMask(m, spec)
      ensures ok ==> f.mask != null && SameMask(f.mask, spec)
      ensures old(ti).Ok(flows) && old(ti).Stored() == flows
      ensures |ti.heads| == if ok && tableMem && count > |old(ti.heads)| then 2 * |old(ti.heads)| else |old(ti.heads)|
      ensures ti == old(ti) <==> !(ok && tableMem && (count > |old(ti.heads)| || now > old(lastRehash) + rehashInterval))
      ensures lastRehash == if ti == old(ti) then old(lastRehash) else now
    {
      hide TableInstance.Ok, TableInstance.Stored, MasksOk, FlowsOk, Unique, LinksOf, SameMask, KeyUnder, NoTwin;
      ok := InsertFlow(f, spec, mem);
      if ok && tableMem {
        HasBuckets(ti, flows);
        if count > |ti.heads| {
          Rehash(2 * |ti.heads|, seed, now);
        } else if now > lastRehash + rehashInterval {
          Rehash(|ti.heads|, seed, now);
        }
      }
    }

    /** `ovs_flow_free` of a flow with a mask: the mask goes with its last user. */
    method PutMask(f: SwFlow, ghost users: set<SwFlow>)
      requires MasksOk(keyWords, maskList, users) && f in users && f.mask in maskList
      modifies this`maskList, f.mask`refCount
      ensures MasksOk(keyWords, maskList, users - {f})
      ensures maskList == if old(f.mask.refCount) == 1 then DropMask(old(maskList), f.mask) else old(maskList)
    {
      hide MasksDistinct, Users;
      var mask := f.mask;
      ghost var masks := maskList;
      mask.refCount := mask.refCount - 1;
      forall x | x in masks ensures x.refCount == |Users(users - {f}, x)| && (x != mask ==> x.refCount > 0) { UsersLeave(users, f, x); }
      if mask.refCount == 0 {
        DropMaskDistinct(keyWords, maskList, mask);
        LastUser(users - {f}, mask);
        maskList := DropMask(maskList, mask);
      }
    }

    /** `ovs_flow_tbl_remove` followed by `ovs_flow_free`. */
    method Delete(f: SwFlow)
      requires Valid() && f in flows
      modifies this`maskList, this`count, this`flows, ti`heads, ti`chains, maskList`refCount, flows`next, flows`prev
      ensures Valid() && flows == old(flows) - {f} && ti == old(ti)
    {
      hide TableInstance.Ok, TableInstance.Stored, MasksOk, FlowOk, Unique, LinksOf;
      ti.Remove(f, flows);
      assert MasksOk(keyWords, maskList, flows) && Unique(flows - {f}) by { assert Unique(flows); FewerUnique(flows, f); }
      HasMask(keyWords, maskList, flows, f);
      PutMask(f, flows);
      MoreFlows(ti, flows, flows - {f});
      flows, count := flows - {f}, count - 1;
    }

    /** `table_instance_destroy` with its flows: all of them are unlinked and freed. */
    method DestroyInstance(t: TableInstance, ghost fs: set<SwFlow>)
      requires t.Ok(fs) && t.Stored() == fs && MasksOk(keyWords, maskList, fs)
      modifies this`maskList, t`heads, t`chains, maskList`refCount, fs`next, fs`prev
      ensures maskList == [] && t.Stored() == {}
    {
      hide TableInstance.Ok, TableInstance.Stored, MasksOk, LinksOf;
      ghost var masks := maskList;
      for b := 0 to |t.heads|
        invariant t.Ok(fs) && t.Stored() <= fs && MasksOk(keyWords, maskList, t.Stored()) && |t.heads| == |old(t.heads)|
        invariant forall d :: 0 <= d < b ==> t.heads[d] == null
        invariant forall m :: m in maskList ==> m in masks
      {
        while t.heads[b] != null
          invariant t.Ok(fs) && t.Stored() <= fs && MasksOk(keyWords, maskList, t.Stored()) && |t.heads| == |old(t.heads)|
          invariant forall d :: 0 <= d < b ==> t.heads[d] == null
          invariant forall m :: m in maskList ==> m in masks
          decreases t.Stored()
        {
          var f := t.heads[b];
          HeadStored(t, fs, b);
          ghost var users := t.Stored();
          HasMask(keyWords, maskList, users, f);
          t.Remove(f, fs);
          PutMask(f, users);
        }
      }
      NoneStored(t, fs);
      MasksAreUsed(keyWords, maskList, t.Stored());
    }

    /** `ovs_flow_tbl_flush`. */
    method Flush(mem: bool, seed: nat, now: nat) returns (ok: bool)
      requires Valid()
      modifies this, ti, maskList`refCount, flows`next, flows`prev
      ensures Valid() && ok == mem
      ensures ok ==> flows == {} && maskList == [] && count == 0 && fresh(ti) && |ti.heads| == TBL_MIN_BUCKETS && lastRehash == now
      ensures !ok ==> flows == old(flows) && ti == old(ti) && maskList == old(maskList)
    {
      hide TableInstance.Ok, TableInstance.Stored, FlowOk, MasksOk, Unique, LinksOf, TableInstance.Empty;
      if !mem {
        return false;
      }
      var t := new TableInstance(hashes, seed, TBL_MIN_BUCKETS);
      var was := ti;
      ghost var fs := flows;
      ti, lastRehash, count, flows := t, now, 0, {};
      DestroyInstance(was, fs);
      t.EmptyOk({});
      NothingIsFine(keyWords);
      ok := true;
    }

    /**
     The flow that lookup returns for the key: under the first mask that has one.  At most
     one flow is, because no two flows have the same mask and masked key.
     */
    ghost predicate IsFirst(f: SwFlow, key: Key)
      reads this, maskList, flows
    {
      && f in flows && Matches(f, key)
      && exists i :: 0 <= i < |maskList| && maskList[i] == f.mask && forall k, g :: 0 <= k < i && g in flows && g.mask == maskList[k] ==> !Matches(g, key)
    }

    lemma FirstIsOne(f: SwFlow, g: SwFlow, key: Key)
      requires Valid() && IsFirst(f, key) && IsFirst(g, key)
      ensures f == g
    {
      hide TableInstance.Ok, TableInstance.Stored, MasksOk, Masked;
      var i :| 0 <= i < |maskList| && maskList[i] == f.mask && forall k, g :: 0 <= k < i && g in flows && g.mask == maskList[k] ==> !Matches(g, key);
      var k :| 0 <= k < |maskList| && maskList[k] == g.mask && forall j, g :: 0 <= j < k && g in flows && g.mask == maskList[j] ==> !Matches(g, key);
      assert FlowOk(hashes, keyWords, f) && FlowOk(hashes, keyWords, g);
      MaskedAlike(f.key, g.key, key, g.unmasked, SpecOf(f.mask));
    }

    ghost predicate NoMatch(key: Key)
      reads this, flows
    {
      forall g :: g in flows ==> !Matches(g, key)
    }

    /** A mask like this one is listed, or there is memory for a new one. */
    ghost predicate CanMask(spec: MaskSpec, mem: bool)
      reads this, maskList
    {
      mem || exists m :: m in maskList && SameMask(m, spec)
    }

    /** `ovs_flow_tbl_lookup`. */
    method LookupFirst(key: Key) returns (f: SwFlow?)
      requires Valid() && |key| == keyWords
      ensures f == null <==> NoMatch(key)
      ensures f != null ==> f in flows && IsFirst(f, key)
    {
      hide TableInstance.Ok, TableInstance.Stored, FlowOk, MasksOk, Unique, Matches;
      var hits: nat;
      f, hits := Lookup(key);
    }

    /**
     The table part of `ovs_flow_cmd_new_or_set`: a flow is created only if no flow is for
     the key, so that no two flows ever have the same mask and masked key.  'create' says
     whether the command may create a flow, 'replace' whether it may change one; 'flowMem',
     'mem' and 'tableMem' whether there is memory for a flow, a mask and a new instance.
     */
    method NewOrSet(create: bool, replace: bool, key: Key, keyStart: nat, keyEnd: nat, spec: MaskSpec,
                    flowMem: bool, mem: bool, tableMem: bool, seed: nat, now: nat) returns (r: Outcome, f: SwFlow?)
      requires Valid() && SpecOk(keyWords, spec) && |key| == keyWords && keyEnd <= keyWords
      modifies this, ti, maskList`refCount, flows`next, flows`prev
      ensures Valid()
      ensures r == NotFound <==> old(NoMatch(key)) && !create
      ensures r == NoMemory <==> old(NoMatch(key)) && create && !(flowMem && old(CanMask(spec, mem)))
      ensures r == Created <==> old(NoMatch(key)) && create && flowMem && old(CanMask(spec, mem))
      ensures r == Created ==> f != null && fresh(f) && flows == old(flows) + {f} && f.unmasked == key && f.mask != null && SameMask(f.mask, spec)
      ensures r != Created ==> flows == old(flows)
      ensures !old(NoMatch(key)) ==> f != null && f in old(flows) && old(IsFirst(f, key))
      ensures r == Changed <==> !old(NoMatch(key)) && replace && f != null && SameWords(f.unmasked, key, keyStart, keyEnd)
    {
      hide TableInstance.Ok, TableInstance.Stored, FlowOk, MasksOk, Unique, LinksOf, Matches, SameMask, Masked, IsFirst;
      f := LookupFirst(key);
      if f == null {
        if !create {
          return NotFound, null;
        }
        if !flowMem {
          return NoMemory, null;
        }
        var masked := MaskKey(key, key, spec);
        f := new SwFlow(masked, key);
        var ok := Insert(f, spec, mem, tableMem, seed, now);
        r := if ok then Created else NoMemory;
      } else if !replace {
        r := Exists;
      } else {
        KeysFit(hashes, keyWords, f);
        var same := CmpKey(f.unmasked, key, keyStart, keyEnd);
        r := if same then Changed else Exists;
      }
    }

    /** The table part of `ovs_flow_cmd_del` for one flow; 'mem' says whether there is memory for the reply. */
    method CmdDel(key: Key, keyStart: nat, keyEnd: nat, mem: bool) returns (r: Outcome, f: SwFlow?)
      requires Valid() && |key| == keyWords && keyEnd <= keyWords
      modifies this`maskList, this`count, this`flows, ti`heads, ti`chains, maskList`refCount, flows`next, flows`prev
      ensures Valid() && r in {Deleted, NotFound, NoMemory}
      ensures f == null <==> old(NoMatch(key))
      ensures f != null ==> f in old(flows) && old(IsFirst(f, key))
      ensures r == NotFound <==> f == null || !SameWords(f.unmasked, key, keyStart, keyEnd)
      ensures r == Deleted <==> f != null && SameWords(f.unmasked, key, keyStart, keyEnd) && mem
      ensures flows == if r == Deleted then old(flows) - {f} else old(flows)
    {
      hide TableInstance.Ok, TableInstance.Stored, FlowOk, MasksOk, Unique, LinksOf, Matches, IsFirst;
      f := LookupFirst(key);
      if f == null {
        return NotFound, null;
      }
      KeysFit(hashes, keyWords, f);
      var same := CmpKey(f.unmasked, key, keyStart, keyEnd);
      if !same {
        return NotFound, f;
      }
      if !mem {
        return NoMemory, f;
      }
      Delete(f);
      r := Deleted;
    }
  }

  /** Two keys under the same mask, where the packet's key gives both. */
  lemma MaskedAlike(a: Key, b: Key, key: Key, other: Key, spec: MaskSpec)
    requires Masked(a, key, spec) && Masked(b, key, spec) && Masked(b, other, spec)
    ensures Masked(a, other, spec)
  {
  }

  datatype Outcome = Created | Changed | Deleted | NotFound | Exists | NoMemory

  lemma KeysFit(h: Hashes, n: nat, f: SwFlow)
    requires FlowOk(h, n, f)
    ensures |f.key| == |f.unmasked| == n
  {
  }

  lemma NothingIsFine(n: nat)
    ensures MasksOk(n, [], {}) && Unique({})
  {
  }

  lemma HeadStored(t: TableInstance, fs: set<SwFlow>, b: nat)
    requires t.Ok(fs) && b < |t.heads| && t.heads[b] != null
    ensures t.heads[b] in t.Stored() && t.Bucket(t.heads[b].hash) == b
  {
    ChainsOf(t, fs, b);
    HeadOf(LinksOf(fs, t.nodeVer), t.heads[b], t.chains[b]);
  }

  lemma NoneStored(t: TableInstance, fs: set<SwFlow>)
    requires t.Ok(fs) && forall b :: 0 <= b < |t.heads| ==> t.heads[b] == null
    ensures t.Stored() == {}
  {
    forall b | 0 <= b < |t.heads| ensures t.chains[b] == [] { HeadOf(LinksOf(fs, t.nodeVer), t.heads[b], t.chains[b]); }
  }

  /** Every mask in the list has a user. */
  lemma MasksAreUsed(n: nat, masks: seq<SwFlowMask>, fs: set<SwFlow>)
    requires MasksOk(n, masks, fs)
    ensures masks != [] ==> fs != {}
  {
    if masks != [] {
      assert masks[0] in masks;
      var f :| f in Users(fs, masks[0]);
    }
  }

  lemma HasMask(n: nat, masks: seq<SwFlowMask>, fs: set<SwFlow>, f: SwFlow)
    requires MasksOk(n, masks, fs) && f in fs
    ensures f.mask != null && f.mask in masks
  {
  }

  lemma FewerUnique(fs: set<SwFlow>, f: SwFlow)
    requires Unique(fs)
    ensures Unique(fs - {f})
  {
  }

  lemma LastUser(fs: set<SwFlow>, m: SwFlowMask)
    requires |Users(fs, m)| == 0
    ensures forall f :: f in fs ==> f.mask != m
  {
    forall f | f in fs ensures f.mask != m { assert f.mask == m ==> f in Users(fs, m); }
  }

  /** No flow is for the masked key that 'unmasked' has under 'spec'. */
  ghost predicate NoTwin(fs: set<SwFlow>, unmasked: Key, spec: MaskSpec)
    reads fs`key, fs`mask
  {
    forall g :: g in fs ==> !(g.mask != null && SameMask(g.mask, spec) && Matches(g, unmasked))
  }

  /** `table_instance_insert` of a flow that has not been linked before. */
  method AddToInstance(ti: TableInstance, f: SwFlow, ghost fs: set<SwFlow>)
    requires ti.Ok(fs) && ti.Stored() == fs && f !in fs
    modifies ti`heads, ti`chains, fs`next, fs`prev, f`next, f`prev
    ensures ti.Ok(fs + {f}) && ti.Stored() == fs + {f} && |ti.heads| == |old(ti.heads)|
  {
    hide TableInstance.Ok, TableInstance.Stored;
    MoreFlows(ti, fs, fs + {f});
    ti.Insert(f, fs + {f});
  }

  lemma MoreFlows(t: TableInstance, fs: set<SwFlow>, gs: set<SwFlow>)
    requires t.Ok(fs) && t.Stored() <= fs && t.Stored() <= gs && (fs <= gs || gs <= fs)
    ensures t.Ok(gs)
  {
    hide OnChains;
    var m, n := LinksOf(fs, t.nodeVer), LinksOf(gs, t.nodeVer);
    forall b | 0 <= b < |t.heads| ensures ChainIn(n, t.heads[b], t.chains[b]) && forall f :: f in t.chains[b] ==> f in gs {
      InChain(t.chains, b);
      forall i | 0 <= i < |t.chains[b]| ensures t.chains[b][i] in n && n[t.chains[b][i]] == m[t.chains[b][i]] {
        assert t.chains[b][i] in t.chains[b];
      }
    }
  }

  /** A flow with a new masked key keeps the flows unique. */
  lemma UniqueMore(h: Hashes, n: nat, fs: set<SwFlow>, f: SwFlow, spec: MaskSpec)
    requires Unique(fs) && f !in fs && FlowOk(h, n, f) && SameMask(f.mask, spec) && FlowsOk(h, n, fs) && NoTwin(fs, f.unmasked, spec)
    ensures Unique(fs + {f})
  {
    hide SameMask, Masked;
    forall g | g in fs && g.mask == f.mask ensures !Matches(g, f.unmasked) && !Matches(f, g.unmasked) {
      MatchBothWays(h, n, f, g);
    }
  }

  lemma MatchBothWays(h: Hashes, n: nat, f: SwFlow, g: SwFlow)
    requires FlowOk(h, n, f) && FlowOk(h, n, g) && f.mask == g.mask
    ensures Matches(f, g.unmasked) <==> Matches(g, f.unmasked)
  {
  }

  /** 'key' is 'unmasked' under 'spec'. */
  ghost predicate KeyUnder(n: nat, key: Key, unmasked: Key, spec: MaskSpec) {
    |key| == |unmasked| == n && Masked(key, unmasked, spec)
  }

  lemma KeyFits(n: nat, f: SwFlow, spec: MaskSpec)
    requires KeyUnder(n, f.key, f.unmasked, spec) && f.mask != null && SameMask(f.mask, spec) && MaskOk(n, f.mask)
    ensures f.mask.start <= f.mask.end <= |f.key| && Masked(f.key, f.unmasked, SpecOf(f.mask))
  {
  }

  lemma NewFlowOk(h: Hashes, n: nat, f: SwFlow, spec: MaskSpec)
    requires KeyUnder(n, f.key, f.unmasked, spec) && f.mask != null && SameMask(f.mask, spec) && MaskOk(n, f.mask)
    requires f.hash == FlowHash(h, f.key, f.mask.start, f.mask.end)
    ensures FlowOk(h, n, f)
  {
  }

  lemma AllOk(n: nat, masks: seq<SwFlowMask>)
    requires MasksDistinct(n, masks)
    ensures forall i :: 0 <= i < |masks| ==> MaskOk(n, masks[i])
  {
  }

  lemma MaskLikeItself(m: SwFlowMask, spec: MaskSpec)
    requires SpecOf(m) == spec && m.end <= |m.key|
    ensures SameMask(m, spec)
  {
  }

  lemma HasBuckets(t: TableInstance, fs: set<SwFlow>)
    requires t.Ok(fs)
    ensures t.heads != [] && |t.chains| == |t.heads|
  {
  }

  lemma InBucket(t: TableInstance, fs: set<SwFlow>, f: SwFlow)
    requires t.Ok(fs) && f in t.Stored() && f in fs
    ensures t.heads != [] && |t.chains| == |t.heads| && f in t.chains[t.Bucket(f.hash)]
  {
  }

  /** The test of hash and key along a bucket finds exactly the matching flows. */
  lemma TestIsMatch(h: Hashes, n: nat, f: SwFlow, key: Key, masked: Key)
    requires FlowOk(h, n, f) && |masked| == n && Masked(masked, key, SpecOf(f.mask))
    ensures |f.key| == n && MaskOk(n, f.mask)
    ensures Matches(f, key) <==>
              f.hash == FlowHash(h, masked, f.mask.start, f.mask.end) && forall i :: f.mask.start <= i < f.mask.end ==> f.key[i] == masked[i]
  {
    SameHash(h, f.key, masked, f.mask.start, f.mask.end);
  }

  lemma SameHash(h: Hashes, a: Key, b: Key, start: nat, end: nat)
    requires start <= end <= |a| && end <= |b|
    ensures (forall i :: start <= i < end ==> a[i] == b[i]) ==> FlowHash(h, a, start, end) == FlowHash(h, b, start, end)
  {
    if forall i :: start <= i < end ==> a[i] == b[i] { assert a[start..end] == b[start..end]; }
  }
}
