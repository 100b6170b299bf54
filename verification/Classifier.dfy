/** `struct classifier`: the operations that change it, and what all of them keep. */
module ClassifierModel {
  import opened Bits
  import opened Flow
  import opened Lookup
  import opened Tables
  import opened Classify
  import opened Upkeep
  import opened PrefixMasks
  import opened State
  import opened SubtableOps
  import opened SubtableList
  import opened TrieBank
  import opened Search
  import opened Overlap
  import opened Megaflows
  import opened MaskBounds
  import opened Rebuild
  import H = TrieClass

  const CLS_MAX_INDICES: nat := 3
  const CLS_MAX_TRIES: nat := 3

  // ----- partitions

  /** `create_partition`, for a rule with a fixed metadata value. */
  method AddToPartition(h: Hasher, parts: map<Bits, Partition>, ghost all: set<Rule>, r: Rule) returns (parts': map<Bits, Partition>)
    requires PartsOk(h, parts, all) && r !in all
    ensures PartsOk(h, parts', all + {r})
  {
    hide PartsOk, RulesAt, Tracks, Metadata;
    if ExactMetadata(r.mask) {
      var m := Metadata(r.flow);
      EmptyPart(h, parts, all, m);
      RulesGain(all, r, m);
      var p := TrackAdd(h, PartAt(parts, m), RulesAt(all, m), r);
      TracksMeans(h, p, RulesAt(all + {r}, m));
      PartsFollow(h, parts, all, all + {r}, m, p);
      parts' := parts[m := p];
    } else {
      RulesGain(all, r, []);
      PartsIgnore(h, parts, all, all + {r});
      parts' := parts;
    }
  }

  lemma RulesGain(all: set<Rule>, r: Rule, m: Bits)
    requires r !in all
    ensures ExactMetadata(r.mask) && Metadata(r.flow) == m ==> r !in RulesAt(all, m) && RulesAt(all + {r}, m) == RulesAt(all, m) + {r}
    ensures forall n :: !(ExactMetadata(r.mask) && Metadata(r.flow) == n) ==> RulesAt(all + {r}, n) == RulesAt(all, n)
  {
    hide Metadata;
  }

  /** The end of `classifier_remove`: a partition without tags goes away. */
  method DropFromPartition(h: Hasher, parts: map<Bits, Partition>, ghost all: set<Rule>, r: Rule) returns (parts': map<Bits, Partition>)
    requires PartsOk(h, parts, all) && r in all
    ensures PartsOk(h, parts', all - {r})
  {
    hide PartsOk, RulesAt, Tracks, Metadata;
    if ExactMetadata(r.mask) {
      var m := Metadata(r.flow);
      EmptyPart(h, parts, all, m);
      RulesLose(all, r, m);
      var p := TrackSubtract(h, PartAt(parts, m), RulesAt(all, m), r);
      PartsFollow(h, parts, all, all - {r}, m, p);
      parts' := if p.tags == {} then parts - {m} else parts[m := p];
    } else {
      RulesLose(all, r, []);
      PartsIgnore(h, parts, all, all - {r});
      parts' := parts;
    }
  }

  lemma RulesLose(all: set<Rule>, r: Rule, m: Bits)
    requires r in all
    ensures ExactMetadata(r.mask) && Metadata(r.flow) == m ==> r in RulesAt(all, m) && RulesAt(all - {r}, m) == RulesAt(all, m) - {r}
    ensures forall n :: !(ExactMetadata(r.mask) && Metadata(r.flow) == n) ==> RulesAt(all - {r}, n) == RulesAt(all, n)
  {
    hide Metadata;
  }

  // ----- stored prefixes

  lemma BagsGain(fields: seq<Field>, bags: seq<multiset<Bits>>, bags': seq<multiset<Bits>>, all: set<Rule>, r: Rule)
    requires BagsOk(fields, bags, all) && r !in all && |bags'| == |bags|
    requires forall j :: 0 <= j < |fields| ==> bags'[j] == bags[j] + Stored(r, fields[j], PrefixLen(r.mask, fields[j]))
    ensures BagsOk(fields, bags', all + {r})
  {
    hide PrefixLen, KeyRules;
    forall j, k | 0 <= j < |fields| ensures bags'[j][k] == |KeyRules(all + {r}, fields[j], k)| {
      KeysGain(all, fields[j], r, k);
    }
  }

  lemma BagsLose(fields: seq<Field>, bags: seq<multiset<Bits>>, bags': seq<multiset<Bits>>, all: set<Rule>, r: Rule)
    requires BagsOk(fields, bags, all) && r in all && |bags'| == |bags|
    requires forall j :: 0 <= j < |fields| ==> bags'[j] == bags[j] - Stored(r, fields[j], PrefixLen(r.mask, fields[j]))
    ensures BagsOk(fields, bags', all - {r})
  {
    hide PrefixLen, KeyRules;
    forall j, k | 0 <= j < |fields| ensures bags'[j][k] == |KeyRules(all - {r}, fields[j], k)| {
      KeysLose(all, fields[j], r, k);
    }
  }

  lemma BagsSwap(fields: seq<Field>, bags: seq<multiset<Bits>>, all: set<Rule>, x: Rule, r: Rule)
    requires BagsOk(fields, bags, all) && x in all && r !in all && x.mask == r.mask && x.flow == r.flow
    ensures BagsOk(fields, bags, all - {x} + {r})
  {
    hide PrefixLen, KeyRules;
    forall j, k | 0 <= j < |fields| ensures bags[j][k] == |KeyRules(all - {x} + {r}, fields[j], k)| {
      KeysSwap(all, fields[j], x, r, k);
    }
  }

  // ----- prefix fields

  /** An entry of the table of match fields: where in the flow it is, if anywhere. */
  datatype MatchField = MatchField(ofs: int, bits: nat, prereq: FlowBits -> bool)

  /** A field that a trie can work on. */
  predicate Compatible(mf: MatchField) {
    mf.ofs >= 0 && mf.bits % 32 == 0
  }

  /** Fields in the flow lie inside it. */
  ghost predicate MfOk(mfs: seq<MatchField>) {
    forall i :: 0 <= i < |mfs| && mfs[i].ofs >= 0 ==> 0 < mfs[i].bits && 32 * mfs[i].ofs + mfs[i].bits <= FLOW_BITS
  }

  function FieldOf(mfs: seq<MatchField>, id: nat): Field
    requires MfOk(mfs) && id < |mfs| && Compatible(mfs[id])
  {
    Field(id, mfs[id].ofs, mfs[id].bits, mfs[id].prereq)
  }

  /** The tries' fields are compatible entries of the table. */
  ghost predicate FromTable(mfs: seq<MatchField>, fields: seq<Field>)
    requires MfOk(mfs)
  {
    forall j :: 0 <= j < |fields| ==> fields[j].id < |mfs| && Compatible(mfs[fields[j].id]) && fields[j] == FieldOf(mfs, fields[j].id)
  }

  /** The fields that `classifier_set_prefix_fields` picks: the first compatible ones, without duplicates. */
  function Picked(mfs: seq<MatchField>, ids: seq<nat>, n: nat): (p: seq<nat>)
    requires n <= |ids| && forall i :: 0 <= i < |ids| ==> ids[i] < |mfs|
    ensures |p| <= CLS_MAX_TRIES && forall j :: 0 <= j < |p| ==> p[j] < |mfs| && Compatible(mfs[p[j]])
  {
    if n == 0 then [] else
      var p := Picked(mfs, ids, n - 1);
      if |p| == CLS_MAX_TRIES || !Compatible(mfs[ids[n - 1]]) || ids[n - 1] in p then p else p + [ids[n - 1]]
  }

  /** The first compatible fields among the first 'n' of the list, in order and each once, and all of them if there is room. */
  ghost predicate PickedOk(mfs: seq<MatchField>, ids: seq<nat>, n: nat, p: seq<nat>)
    requires n <= |ids| && forall i :: 0 <= i < |ids| ==> ids[i] < |mfs|
  {
    && (forall x :: x in p ==> x in ids[..n] && x < |mfs| && Compatible(mfs[x]))
    && (forall j, k :: 0 <= j < k < |p| ==> p[j] != p[k])
    && (|p| < CLS_MAX_TRIES ==> forall i :: 0 <= i < n && Compatible(mfs[ids[i]]) ==> ids[i] in p)
    && (forall i, x :: 0 <= i < n && Compatible(mfs[ids[i]]) && ids[i] !in p && x in p ==> x in ids[..i])
    && (forall j, k :: 0 <= j < k < |p| ==> Before(ids, n, p[j], p[k]))
  }

  /** 'x' is in the list before 'y' is. */
  ghost predicate Before(ids: seq<nat>, n: nat, x: nat, y: nat)
    requires n <= |ids|
  {
    exists i :: 0 <= i <= n && x in ids[..i] && y !in ids[..i]
  }

  /** What is picked. */
  lemma {:induction false} PickedSpec(mfs: seq<MatchField>, ids: seq<nat>, n: nat)
    requires n <= |ids| && forall i :: 0 <= i < |ids| ==> ids[i] < |mfs|
    ensures PickedOk(mfs, ids, n, Picked(mfs, ids, n))
  {
    hide Compatible;
    if n > 0 {
      PickedSpec(mfs, ids, n - 1);
      var p := Picked(mfs, ids, n - 1);
      assert ids[..n] == ids[..n - 1] + [ids[n - 1]];
      if |p| == CLS_MAX_TRIES || !Compatible(mfs[ids[n - 1]]) || ids[n - 1] in p {
        PickedKept(mfs, ids, n, p);
      } else {
        PickedMore(mfs, ids, n, p);
      }
    }
  }

  lemma PickedKept(mfs: seq<MatchField>, ids: seq<nat>, n: nat, p: seq<nat>)
    requires 0 < n <= |ids| && forall i :: 0 <= i < |ids| ==> ids[i] < |mfs|
    requires PickedOk(mfs, ids, n - 1, p) && ids[..n] == ids[..n - 1] + [ids[n - 1]]
    requires |p| == CLS_MAX_TRIES || !Compatible(mfs[ids[n - 1]]) || ids[n - 1] in p
    ensures PickedOk(mfs, ids, n, p)
  {
    hide Compatible;
  }

  lemma PickedMore(mfs: seq<MatchField>, ids: seq<nat>, n: nat, p: seq<nat>)
    requires 0 < n <= |ids| && forall i :: 0 <= i < |ids| ==> ids[i] < |mfs|
    requires PickedOk(mfs, ids, n - 1, p) && ids[..n] == ids[..n - 1] + [ids[n - 1]]
    requires |p| < CLS_MAX_TRIES && Compatible(mfs[ids[n - 1]]) && ids[n - 1] !in p
    ensures PickedOk(mfs, ids, n, p + [ids[n - 1]])
  {
    hide Compatible;
    var q := p + [ids[n - 1]];
    assert forall x :: x in q <==> x in p || x == ids[n - 1];
  }

  lemma {:induction false} PickedFull(mfs: seq<MatchField>, ids: seq<nat>, n: nat, m: nat)
    requires n <= m <= |ids| && forall i :: 0 <= i < |ids| ==> ids[i] < |mfs|
    requires n == |ids| || |Picked(mfs, ids, n)| == CLS_MAX_TRIES
    ensures Picked(mfs, ids, m) == Picked(mfs, ids, n)
  {
    if n < m { PickedFull(mfs, ids, n, m - 1); }
  }

  function FieldsOf(mfs: seq<MatchField>, ids: seq<nat>): seq<Field>
    requires MfOk(mfs) && forall j :: 0 <= j < |ids| ==> ids[j] < |mfs| && Compatible(mfs[ids[j]])
  {
    seq(|ids|, j requires 0 <= j < |ids| => FieldOf(mfs, ids[j]))
  }

  // ----- the classifier

  class Classifier {
    const h: Hasher
    const segments: seq<nat>
    const bank: Bank
    const mfs: seq<MatchField>
    var nRules: nat
    var subtables: seq<Subtable>
    var partitions: map<Bits, Partition>
    /** The rules in the classifier. */
    ghost var all: set<Rule>

    ghost predicate Valid()
      reads this, bank, bank.nodes
    {
      && bank.Valid() && this !in bank.nodes && |bank.fields| <= CLS_MAX_TRIES
      && SegmentsOk(segments) && MfOk(mfs) && FromTable(mfs, bank.fields)
      && Consistent(h, segments, bank.fields, subtables, partitions, bank.bags, all)
      && nRules == |all|
    }

    /** What lookup reads. */
    ghost function Snapshot(): View
      reads this, bank
    {
      View(h, subtables, TagsOfParts(partitions), bank.views)
    }

    /** `classifier_init`. */
    constructor (h: Hasher, mfs: seq<MatchField>, flowSegments: seq<nat>)
      requires MfOk(mfs)
      requires forall i :: 0 <= i < |flowSegments| ==> 0 < flowSegments[i]
      requires forall i, j :: 0 <= i < j < |flowSegments| ==> flowSegments[i] < flowSegments[j]
      ensures Valid() && all == {} && this.h == h && this.mfs == mfs && fresh(bank) && fresh(bank.nodes) && bank.fields == []
      ensures |segments| <= CLS_MAX_INDICES && segments <= flowSegments
      ensures |segments| == CLS_MAX_INDICES || segments == flowSegments || flowSegments[|segments|] >= FLOW_U32S
    {
      this.h, this.mfs := h, mfs;
      var used := [];
      while |used| < CLS_MAX_INDICES && |used| < |flowSegments| && flowSegments[|used|] < FLOW_U32S
        invariant |used| <= CLS_MAX_INDICES && |used| <= |flowSegments| && used == flowSegments[..|used|] && SegmentsOk(used)
        decreases |flowSegments| - |used|
      {
        used := used + [flowSegments[|used|]];
      }
      segments := used;
      nRules, subtables, partitions, all := 0, [], map[], {};
      bank := new Bank();
    }

    /** The rest of `classifier_replace` after a rule was added to the subtables. */
    method RuleAdded(subs: seq<Subtable>, plens: seq<nat>, rule: Rule)
      requires Valid() && rule !in all
      requires TablesOk(h, segments, bank.fields, multiset(subs), all + {rule}) && Sorted(subs)
      requires |plens| == |bank.fields| && forall j :: 0 <= j < |bank.fields| ==> plens[j] == PrefixLen(rule.mask, bank.fields[j])
      modifies this, bank, bank.nodes
      ensures Valid() && fresh(bank.nodes - old(bank.nodes)) && bank.fields == old(bank.fields)
      ensures all == old(all) + {rule}
    {
      hide TablesOk, Sorted, PartsOk, BagsOk, SegmentsOk, PrefixLen, Stored, Bank.Valid;
      ghost var bags := bank.bags;
      var parts := AddToPartition(h, partitions, all, rule);
      bank.InsertRule(rule, plens);
      BagsGain(bank.fields, bags, bank.bags, all, rule);
      subtables, partitions, nRules, all := subs, parts, nRules + 1, all + {rule};
    }

    /** The same after a rule took the place of another. */
    method RuleSwapped(subs: seq<Subtable>, was: Rule, rule: Rule)
      requires Valid() && rule !in all && was in all && was.mask == rule.mask && was.flow == rule.flow
      requires TablesOk(h, segments, bank.fields, multiset(subs), all - {was} + {rule}) && Sorted(subs)
      modifies this
      ensures Valid() && all == old(all) - {was} + {rule}
    {
      hide TablesOk, Sorted, PartsOk, BagsOk, SegmentsOk, Bank.Valid;
      PartsSwap(h, partitions, all, was, rule);
      BagsSwap(bank.fields, bank.bags, all, was, rule);
      subtables, all := subs, all - {was} + {rule};
    }

    /**
     `classifier_replace`: afterwards 'rule' is in the classifier, instead of the rule with
     its match and priority if there was one, which is returned.
     */
    method Replace(rule: Rule) returns (was: Option<Rule>)
      requires Valid() && rule !in all
      modifies this, bank, bank.nodes
      ensures Valid() && fresh(bank.nodes - old(bank.nodes)) && bank.fields == old(bank.fields)
      ensures IsTwin(old(all), rule, was)
      ensures all == old(all) - Gone(was) + {rule}
    {
      hide TablesOk, Sorted, PartsOk, BagsOk, SegmentsOk, PrefixLen, Bank.Valid;
      var subs, twin, plens := InsertInto(h, segments, bank.fields, subtables, all, rule);
      was := twin;
      assert was == None ==> all - Gone(was) + {rule} == all + {rule};
      if was == None {
        RuleAdded(subs, plens, rule);
      } else {
        RuleSwapped(subs, was.value, rule);
      }
    }

    /** `classifier_remove`. */
    method Remove(rule: Rule)
      requires Valid() && rule in all
      modifies this, bank, bank.nodes
      ensures Valid() && fresh(bank.nodes - old(bank.nodes)) && bank.fields == old(bank.fields)
      ensures all == old(all) - {rule}
    {
      hide TablesOk, Sorted, PartsOk, BagsOk, SegmentsOk, PrefixLen, Stored, Bank.Valid;
      ghost var bags := bank.bags;
      var subs, plens := RemoveFrom(h, segments, bank.fields, subtables, all, rule);
      var parts := DropFromPartition(h, partitions, all, rule);
      bank.RemoveRule(rule, plens);
      BagsLose(bank.fields, bags, bank.bags, all, rule);
      subtables, partitions, nRules, all := subs, parts, nRules - 1, all - {rule};
    }

    lemma SnapshotOk()
      requires Valid()
      ensures ViewOk(Snapshot()) && forall r :: InView(Snapshot(), r) <==> r in all
    {
      hide TablesOk, Sorted, PartsOk, BagsOk, SegmentsOk, Bank.Valid, ViewOk, H.Stores;
      bank.BagsStored();
      StateGivesView(segments, bank.fields, partitions, bank.bags, all, Snapshot());
    }

    /** The flows agree on metadata and on whether each field with a trie is present. */
    ghost predicate Comparable(f: FlowBits, g: FlowBits)
      reads this, bank
    {
      Metadata(f) == Metadata(g) && forall j :: 0 <= j < |bank.fields| ==> bank.fields[j].prereq(f) == bank.fields[j].prereq(g)
    }

    /**
     The header's non-overlap promise: with at most one trie, on a field inside one segment,
     the megaflows of two lookups are the same or have no flow in common.
     */
    lemma MegaflowsDisjoint(a: FlowBits, b: FlowBits, g: FlowBits, x: FlowBits)
      requires Valid() && |bank.fields| <= 1 && forall j :: 0 <= j < |bank.fields| ==> InOneSegment(segments, bank.fields[j])
      requires ViewOk(Snapshot()) && Comparable(a, g) && Comparable(b, g) && InRegion(Snapshot(), a, g) && InRegion(Snapshot(), b, g)
      ensures LookupRule(Snapshot(), a, Zeros(FLOW_BITS)) == LookupRule(Snapshot(), b, Zeros(FLOW_BITS))
      ensures InRegion(Snapshot(), a, x) <==> InRegion(Snapshot(), b, x)
    {
      hide TablesOk, Sorted, PartsOk, BagsOk, SegmentsOk, Bank.Valid, ViewOk, H.Stores, InRegion, LookupRule, OneTrieEverywhere, Metadata;
      bank.BagsStored();
      OneTrieBySegments(segments, bank.fields, all, Snapshot(), a, g);
      OneTrieBySegments(segments, bank.fields, all, Snapshot(), b, g);
      RegionsDisjointOrEqual(Snapshot(), a, b, g, x);
    }

    /** `classifier_lookup` with a wildcard argument. */
    method LookupWc(f: FlowBits, wc: FlowBits) returns (r: Found)
      requires Valid()
      ensures ViewOk(Snapshot()) && r == LookupRule(Snapshot(), f, wc)
      ensures Within(wc, r.wc) && Decides(all, f, r)
      ensures Tight(Snapshot(), f, wc, r.wc)
    {
      hide Consistent, Bank.Valid, ListsOk, IndicesOk, TriesCover, TagsOk, FindFrom, Intersects, CtxOk, PartitionsOk, Metadata, Decides, Tight;
      SnapshotOk();
      ghost var v := Snapshot();
      SafeFor(v, all, f, wc);
      LookupIsTight(v, f, wc);
      var tags := if Metadata(f) in partitions then partitions[Metadata(f)].tags else TAG_ARBITRARY;
      assert tags == Tags(v, f);
      var ctx := seq(|bank.fields|, i => TrieCtx(false, 0, 0));
      NewCtx(bank, ctx, f);
      r := Found(None, wc);
      for k := 0 to |subtables|
        invariant CtxOk(ctx, bank.views, f)
        invariant LookupFrom(v, f, k, r.rule, r.wc) == LookupRule(v, f, wc)
      {
        var s := subtables[k];
        if r.rule.Some? && s.maxPriority <= r.rule.value.priority {
          return;
        }
        if Intersects(tags, s.tag) {
          assert SubtableOk(v, s);
          var found, ctx' := RunFindMatchWc(bank, h, s, ctx, f, r.wc);
          ctx := ctx';
          r := Found(if found.rule.Some? && (r.rule.None? || found.rule.value.priority > r.rule.value.priority) then found.rule else r.rule, found.wc);
        }
      }
    }

    /** `classifier_lookup` without a wildcard argument. */
    method LookupFlow(f: FlowBits) returns (r: Option<Rule>)
      requires Valid()
      ensures BestOf(all, f, r)
    {
      hide Consistent, Bank.Valid, ListsOk, IndicesOk, TriesCover, TagsOk, FindMatch, Intersects, PartitionsOk, Metadata, IsBest, BestOf, StageHash;
      SnapshotOk();
      ghost var v := Snapshot();
      BestInAll(v, all, f);
      var tags := if Metadata(f) in partitions then partitions[Metadata(f)].tags else TAG_ARBITRARY;
      assert tags == Tags(v, f);
      r := None;
      for k := 0 to |subtables|
        invariant LookupPlain(v, f, k, r) == LookupPlain(v, f, 0, None)
      {
        var s := subtables[k];
        if r.Some? && s.maxPriority <= r.value.priority {
          return;
        }
        if Intersects(tags, s.tag) {
          assert SubtableOk(v, s);
          var found := RunFindMatch(h, s, f, StageHash(h, f, s.mask, FLOW_U32S));
          r := if found.Some? && (r.None? || found.value.priority > r.value.priority) then found else r;
        }
      }
    }

    /** `classifier_find_rule_exactly`. */
    method FindRuleExactly(target: Rule) returns (r: Option<Rule>)
      requires Valid()
      ensures IsTwin(all, target, r)
    {
      hide Sorted, PartsOk, BagsOk, SegmentsOk, Bank.Valid, TablesOk, SubCore, RuleSet;
      r := None;
      var at := FindSubtable(subtables, target.mask);
      if at == None {
        NoTwin(h, segments, bank.fields, subtables, all, target);
      } else {
        var s := subtables[at.value];
        OneOf(h, segments, bank.fields, subtables, all, at.value);
        MaxOfAll(h, segments, bank.fields, s);
        if target.priority <= s.maxPriority {
          r := FindTwin(h, s, target);
        }
      }
    }

    /** `trie_init` for a field. */
    method InitTrie(j: nat, id: nat)
      requires Valid() && j <= |bank.fields| && j < CLS_MAX_TRIES && id < |mfs| && Compatible(mfs[id])
      modifies this, bank, bank.nodes
      ensures Valid() && fresh(bank.nodes - old(bank.nodes)) && all == old(all)
      ensures bank.fields == Put(old(bank.fields), j, FieldOf(mfs, id))
    {
      hide TablesOk, Sorted, PartsOk, BagsOk, SegmentsOk, Bank.Valid, Put, Counted, Measured;
      ghost var fields, bags := bank.fields, bank.bags;
      bank.Reset(j, FieldOf(mfs, id));
      var subs := Refill(bank, j, subtables, h, segments, fields, all);
      Remeasured(h, segments, fields, bank.fields, subtables, subs, all);
      BagsPut(fields, bags, all, j, bank.fields[j], bank.bags[j]);
      PutPut(bags, j, multiset{}, bank.bags[j]);
      PutFromTable(mfs, fields, j, id);
      subtables := subs;
    }

    /** The end of `classifier_set_prefix_fields`: the tries from 'n' on are destroyed. */
    method DropTries(n: nat)
      requires Valid() && n <= |bank.fields|
      modifies this, bank
      ensures Valid() && bank.nodes == old(bank.nodes) && all == old(all)
      ensures bank.fields == old(bank.fields)[..n]
    {
      hide TablesOk, Sorted, PartsOk, BagsOk, SegmentsOk, Bank.Valid, Measured;
      ghost var fields, bags := bank.fields, bank.bags;
      var subs := CutPlens(h, segments, fields, subtables, all, n);
      Remeasured(h, segments, fields, fields[..n], subtables, subs, all);
      CutBags(fields, bags, all, n);
      bank.Truncate(n);
      subtables := subs;
    }

    /** `classifier_set_prefix_fields`. */
    method SetPrefixFields(ids: seq<nat>)
      requires Valid() && forall i :: 0 <= i < |ids| ==> ids[i] < |mfs|
      modifies this, bank, bank.nodes
      ensures Valid() && fresh(bank.nodes - old(bank.nodes)) && all == old(all)
      ensures bank.fields == FieldsOf(mfs, Picked(mfs, ids, |ids|))
    {
      hide Consistent, SegmentsOk, Bank.Valid;
      var i, picked := 0, [];
      while i < |ids| && |picked| < CLS_MAX_TRIES
        invariant Valid() && fresh(bank.nodes - old(bank.nodes)) && all == old(all)
        invariant i <= |ids| && picked == Picked(mfs, ids, i)
        invariant |picked| <= |bank.fields| && forall j :: 0 <= j < |picked| ==> bank.fields[j].id == picked[j]
      {
        var id, trie := ids[i], |picked|;
        i := i + 1;
        if Compatible(mfs[id]) && id !in picked {
          if trie >= |bank.fields| || bank.fields[trie].id != id {
            InitTrie(trie, id);
          }
          picked := picked + [id];
        }
      }
      PickedFull(mfs, ids, i, |ids|);
      DropTries(|picked|);
      FieldsAre(mfs, bank.fields, picked);
    }

    /** `classifier_rule_overlaps`: exactly if a rule of the target's priority shares a packet with it. */
    method RuleOverlaps(target: Rule) returns (found: bool)
      requires Valid()
      ensures found <==> exists x :: x in all && x.priority == target.priority && Meet(x, target)
    {
      hide TablesOk, Sorted, PartsOk, BagsOk, SegmentsOk, Bank.Valid, Meet;
      found := Overlaps(h, segments, bank.fields, subtables, all, target);
      assert forall x :: Clashes(x, target) <==> x.priority == target.priority && Meet(x, target);
    }
  }

  lemma PutPut<T>(s: seq<T>, j: nat, x: T, y: T)
    requires j <= |s|
    ensures Put(s, j, x)[j := y] == Put(s, j, y)
  {
  }

  lemma PutFromTable(mfs: seq<MatchField>, fields: seq<Field>, j: nat, id: nat)
    requires MfOk(mfs) && FromTable(mfs, fields) && j <= |fields| && id < |mfs| && Compatible(mfs[id])
    ensures FromTable(mfs, Put(fields, j, FieldOf(mfs, id)))
  {
  }

  lemma FieldsAre(mfs: seq<MatchField>, fields: seq<Field>, ids: seq<nat>)
    requires MfOk(mfs) && FromTable(mfs, fields) && |ids| == |fields| && forall j :: 0 <= j < |ids| ==> fields[j].id == ids[j]
    requires forall j :: 0 <= j < |ids| ==> ids[j] < |mfs| && Compatible(mfs[ids[j]])
    ensures fields == FieldsOf(mfs, ids)
  {
  }

  method CutPlens(ghost h: Hasher, ghost segments: seq<nat>, ghost fields: seq<Field>, subs: seq<Subtable>, ghost all: set<Rule>, n: nat)
    returns (subs': seq<Subtable>)
    requires TablesOk(h, segments, fields, multiset(subs), all) && n <= |fields|
    ensures |subs'| == |subs| && forall i :: 0 <= i < |subs| ==> Measured(subs[i], subs'[i], fields[..n])
  {
    hide TablesOk, SubCore, RuleSet, PrefixLen;
    subs' := [];
    for i := 0 to |subs|
      invariant |subs'| == i && forall k :: 0 <= k < i ==> Measured(subs[k], subs'[k], fields[..n])
    {
      OneOf(h, segments, fields, subs, all, i);
      PlensOf(h, segments, fields, subs[i]);
      subs' := subs' + [subs[i].(plens := subs[i].plens[..n])];
    }
  }

  lemma CutBags(fields: seq<Field>, bags: seq<multiset<Bits>>, all: set<Rule>, n: nat)
    requires BagsOk(fields, bags, all) && n <= |fields|
    ensures BagsOk(fields[..n], bags[..n], all)
  {
    hide KeyRules;
  }

  lemma MaxOfAll(h: Hasher, segments: seq<nat>, fields: seq<Field>, s: Subtable)
    requires SubCore(h, segments, fields, s)
    ensures ListsOk(s) && forall r :: r in RuleSet(s.rules) ==> r.priority <= s.maxPriority
  {
  }

  /** The scan at the end of `classifier_find_rule_exactly`. */
  method FindTwin(h: Hasher, s: Subtable, target: Rule) returns (r: Option<Rule>)
    requires ListsOk(s) && target.mask == s.mask
    ensures IsTwin(RuleSet(s.rules), target, r)
  {
    hide StageHash, ListOk, RuleSet;
    var head := FindEqual(h, s, target.flow, StageHash(h, target.flow, s.mask, FLOW_U32S));
    r := None;
    if head == None {
      NoSuchList(s, target.flow);
    } else {
      var k := head.value;
      var p, swap := FindPlace(s.rules[k], target);
      TwinsInList(s, k, p, target, swap);
      if swap { r := Some(s.rules[k][p]); }
    }
  }

  lemma NoSuchList(s: Subtable, flow: FlowBits)
    requires ListsOk(s) && forall l :: 0 <= l < |s.rules| ==> s.rules[l][0].flow != flow
    ensures forall x :: x in RuleSet(s.rules) ==> x.flow != flow
  {
    forall x | x in RuleSet(s.rules) ensures x.flow != flow {
      var k :| 0 <= k < |s.rules| && x in s.rules[k];
      assert ListOk(s.rules[k], s.mask);
    }
  }

  lemma TwinsInList(s: Subtable, k: nat, p: nat, r: Rule, swap: bool)
    requires ListsOk(s) && k < |s.rules| && s.rules[k][0].flow == r.flow && IsPlace(s.rules[k], p, r, swap)
    ensures swap ==> var x := s.rules[k][p]; x in RuleSet(s.rules) && x.mask == s.mask && x.flow == r.flow
    ensures forall x :: x in RuleSet(s.rules) && x.flow == r.flow && x.priority == r.priority ==> swap && x == s.rules[k][p]
  {
    hide RuleSet, IsPlace, Descending;
    assert ListOk(s.rules[k], s.mask);
    SamePriority(s.rules[k], p, r, swap);
    if swap { PlaceInside(s.rules[k], p, r); TwinOf(s, k, p); }
    forall x | x in RuleSet(s.rules) && x.flow == r.flow && x.priority == r.priority ensures swap && x == s.rules[k][p] {
      SameFlowSameList(s, k, x);
    }
  }

  lemma PlaceInside(l: seq<Rule>, p: nat, r: Rule)
    requires IsPlace(l, p, r, true)
    ensures p < |l|
  {
  }

  // ----- what lookup promises

  /** 'r' is a rule of highest priority among those that match 'f', or none matches. */
  ghost predicate BestOf(all: set<Rule>, f: FlowBits, r: Option<Rule>) {
    match r
    case None => forall x :: x in all ==> !Matches(x, f)
    case Some(b) => b in all && Matches(b, f) && forall x :: x in all && Matches(x, f) ==> x.priority <= b.priority
  }

  /** The found rule is best for every flow with f's metadata that the mask cannot tell from 'f'. */
  ghost predicate Decides(all: set<Rule>, f: FlowBits, r: Found) {
    forall g :: Metadata(g) == Metadata(f) && AgreeOn(r.wc, f, g) ==> BestOf(all, g, r.rule)
  }

  lemma BestInAll(v: View, all: set<Rule>, f: FlowBits)
    requires ViewOk(v) && forall r :: InView(v, r) <==> r in all
    ensures BestOf(all, f, LookupPlain(v, f, 0, None))
  {
    hide ViewOk, LookupPlain, LookupFrom, InView, Matches;
    LookupReturnsBest(v, f, Zeros(FLOW_BITS));
  }

  lemma SafeFor(v: View, all: set<Rule>, f: FlowBits, wc: FlowBits)
    requires ViewOk(v) && forall r :: InView(v, r) <==> r in all
    ensures Within(wc, LookupRule(v, f, wc).wc) && Decides(all, f, LookupRule(v, f, wc))
  {
    hide ViewOk, LookupPlain, LookupRule, InView, Matches, Within, Metadata, AgreeOn;
    SelfAgree(f, LookupRule(v, f, wc).wc);
    WildcardSound(v, f, f, wc, wc);
    forall g | Metadata(g) == Metadata(f) && AgreeOn(LookupRule(v, f, wc).wc, f, g) ensures BestOf(all, g, LookupRule(v, f, wc).rule) {
      WildcardSound(v, f, g, wc, wc);
      LookupReturnsBest(v, g, wc);
    }
  }

  lemma SelfAgree(f: FlowBits, mask: FlowBits)
    ensures AgreeOn(mask, f, f)
  {
  }

  lemma NewCtx(bank: Bank, ctx: seq<TrieCtx>, f: FlowBits)
    requires bank.Valid() && |ctx| == |bank.fields| && forall j :: 0 <= j < |ctx| ==> !ctx[j].done
    ensures CtxOk(ctx, bank.views, f)
  {
  }
}
