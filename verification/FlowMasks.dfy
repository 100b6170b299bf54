/** Shared, reference-counted masks, and keys under them (`datapath/flow_table.c`). */
module FlowMasks {
  import opened FlowChains
  import opened FlowInstance

  /** What a caller gives for a mask. */
  datatype MaskSpec = MaskSpec(start: nat, end: nat, key: Key)

  predicate SpecOk(n: nat, s: MaskSpec) {
    s.start <= s.end <= n == |s.key|
  }

  ghost predicate MaskOk(n: nat, m: SwFlowMask) {
    m.start <= m.end <= n == |m.key|
  }

  /** `mask_equal`. */
  ghost predicate SameMask(m: SwFlowMask, s: MaskSpec) {
    m.start == s.start && m.end == s.end <= |m.key| && s.end <= |s.key| && forall i :: s.start <= i < s.end ==> m.key[i] == s.key[i]
  }

  function SpecOf(m: SwFlowMask): MaskSpec {
    MaskSpec(m.start, m.end, m.key)
  }

  // ----- word loops

  lemma XorZero(x: Word, y: Word, d: Word)
    ensures d | (x ^ y) == 0 <==> d == 0 && x == y
  {
    assert (x ^ y == 0) <==> x == y;
  }

  ghost predicate SameWords(a: Key, b: Key, start: nat, end: nat) {
    end <= |a| && end <= |b| && forall i :: start <= i < end ==> a[i] == b[i]
  }

  /** `cmp_key`. */
  method CmpKey(a: Key, b: Key, start: nat, end: nat) returns (same: bool)
    requires end <= |a| && end <= |b|
    ensures same <==> SameWords(a, b, start, end)
  {
    var diffs: Word := 0;
    var i := start;
    while i < end
      invariant start <= i && (i == start || i <= end)
      invariant diffs == 0 <==> forall j :: start <= j < i ==> a[j] == b[j]
    {
      XorZero(a[i], b[i], diffs);
      diffs := diffs | (a[i] ^ b[i]);
      i := i + 1;
    }
    same := diffs == 0;
  }

  /** 'k' is 'key' under the mask, on the mask's range. */
  ghost predicate Masked(k: Key, key: Key, m: MaskSpec) {
    m.end <= |k| && m.end <= |key| && m.end <= |m.key| && forall i :: m.start <= i < m.end ==> k[i] == key[i] & m.key[i]
  }

  /** `ovs_flow_mask_key`: what 'dst' holds outside the mask's range stays. */
  method MaskKey(dst: Key, key: Key, m: MaskSpec) returns (k: Key)
    requires m.start <= m.end <= |m.key| && m.end <= |key| && m.end <= |dst|
    ensures |k| == |dst| && Masked(k, key, m)
    ensures forall i :: 0 <= i < |dst| && !(m.start <= i < m.end) ==> k[i] == dst[i]
  {
    k := dst;
    for i := m.start to m.end
      invariant |k| == |dst|
      invariant forall j :: m.start <= j < i ==> k[j] == key[j] & m.key[j]
      invariant forall j :: 0 <= j < |dst| && !(m.start <= j < i) ==> k[j] == dst[j]
    {
      k := k[i := key[i] & m.key[i]];
    }
  }

  // ----- reference counts

  /** The flows in 'fs' that use 'm'. */
  ghost function Users(fs: set<SwFlow>, m: SwFlowMask): set<SwFlow>
    reads fs`mask
  {
    set f | f in fs && f.mask == m
  }

  /** Distinct masks, each with as many references as users, and at least one. */
  ghost predicate MasksOk(n: nat, masks: seq<SwFlowMask>, fs: set<SwFlow>)
    reads masks`refCount, fs`mask
  {
    && MasksDistinct(n, masks)
    && (forall m :: m in masks ==> m.refCount == |Users(fs, m)| > 0)
    && (forall f :: f in fs ==> f.mask != null && f.mask in masks)
  }

  /** `flow_mask_find`. */
  method MaskFind(n: nat, masks: seq<SwFlowMask>, spec: MaskSpec) returns (m: SwFlowMask?)
    requires SpecOk(n, spec) && forall i :: 0 <= i < |masks| ==> MaskOk(n, masks[i])
    ensures m != null ==> m in masks && SameMask(m, spec)
    ensures m == null ==> forall i :: 0 <= i < |masks| ==> !SameMask(masks[i], spec)
  {
    for i := 0 to |masks|
      invariant forall j :: 0 <= j < i ==> !SameMask(masks[j], spec)
    {
      var x := masks[i];
      if x.start == spec.start && x.end == spec.end {
        var same := CmpKey(x.key, spec.key, spec.start, spec.end);
        if same {
          return x;
        }
      }
    }
    m := null;
  }

  /** What changes when 'f' joins the users of its mask. */
  lemma UsersJoin(fs: set<SwFlow>, f: SwFlow, m: SwFlowMask)
    requires f !in fs
    ensures |Users(fs + {f}, m)| == |Users(fs, m)| + if f.mask == m then 1 else 0
  {
    assert Users(fs + {f}, m) == if f.mask == m then Users(fs, m) + {f} else Users(fs, m);
  }

  lemma UsersLeave(fs: set<SwFlow>, f: SwFlow, m: SwFlowMask)
    requires f in fs
    ensures |Users(fs - {f}, m)| == |Users(fs, m)| - if f.mask == m then 1 else 0
  {
    assert Users(fs - {f}, m) == if f.mask == m then Users(fs, m) - {f} else Users(fs, m);
  }

  /** No flow uses a mask that is not in the list. */
  lemma NoUsers(fs: set<SwFlow>, masks: seq<SwFlowMask>, m: SwFlowMask)
    requires (forall f :: f in fs ==> f.mask in masks) && m !in masks
    ensures Users(fs, m) == {}
  {
  }

  lemma NewMaskDistinct(n: nat, masks: seq<SwFlowMask>, m: SwFlowMask, spec: MaskSpec)
    requires MasksDistinct(n, masks) && MaskOk(n, m) && SpecOf(m) == spec && forall i :: 0 <= i < |masks| ==> !SameMask(masks[i], spec)
    ensures MasksDistinct(n, [m] + masks)
  {
    var masks' := [m] + masks;
    forall i, j | 0 <= i < j < |masks'| ensures !SameMask(masks'[i], SpecOf(masks'[j])) {
      assert masks'[j] == masks[j - 1];
      if i == 0 { assert !SameMask(masks[j - 1], SpecOf(m)); } else { assert masks'[i] == masks[i - 1]; }
    }
  }

  /** Removing a mask from the list, `list_del_rcu`. */
  function DropMask(masks: seq<SwFlowMask>, m: SwFlowMask): (r: seq<SwFlowMask>)
    ensures (forall x :: x in r ==> x in masks && x != m) && (forall x :: x in masks && x != m ==> x in r)
  {
    if masks == [] then [] else (if masks[0] == m then [] else [masks[0]]) + DropMask(masks[1..], m)
  }

  lemma {:induction false} DropMaskDistinct(n: nat, masks: seq<SwFlowMask>, m: SwFlowMask)
    requires MasksDistinct(n, masks)
    ensures MasksDistinct(n, DropMask(masks, m))
  {
    if masks != [] {
      DropMaskDistinct(n, masks[1..], m);
      var r := DropMask(masks[1..], m);
      forall x | x in r ensures !SameMask(masks[0], SpecOf(x)) {
        var i :| 0 <= i < |masks[1..]| && masks[1..][i] == x;
        assert masks[i + 1] == x;
      }
    }
  }

  ghost predicate MasksDistinct(n: nat, masks: seq<SwFlowMask>) {
    && (forall i :: 0 <= i < |masks| ==> MaskOk(n, masks[i]))
    && (forall i, j :: 0 <= i < j < |masks| ==> !SameMask(masks[i], SpecOf(masks[j])))
  }
}
