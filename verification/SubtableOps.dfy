/** The operations of `lib/classifier.c` on a single subtable. */
module SubtableOps {
  import opened Bits
  import opened Flow
  import opened Lookup
  import opened Tables
  import opened Classify
  import opened Upkeep
  import opened PrefixMasks
  import opened State

  // ----- insert_subtable

  /** Segment ends in ascending order inside the flow. */
  predicate SegmentsOk(segments: seq<nat>) {
    && (forall i :: 0 <= i < |segments| ==> 0 < segments[i] < FLOW_U32S)
    && (forall i, j :: 0 <= i < j < |segments| ==> segments[i] < segments[j])
  }

  /** Stages in ascending order at segment ends, each with mask bits of its own. */
  ghost predicate Staged(mask: FlowBits, segments: seq<nat>, ofs: seq<nat>) {
    && (forall b :: b in ofs ==> b in segments)
    && (forall i, j :: 0 <= i < j < |ofs| ==> ofs[i] <= ofs[j])
    && (forall i :: 0 <= i < |ofs| ==> AddsBits(mask, StartOf(ofs, i), ofs[i]))
  }

  /** The stages that `insert_subtable` gives a mask: an index wherever a segment adds bits of it. */
  method ChooseStages(segments: seq<nat>, mask: FlowBits) returns (ofs: seq<nat>)
    requires SegmentsOk(segments)
    ensures Staged(mask, segments, ofs) && StagesUseful(segments, mask, ofs)
  {
    hide AddsBits, Range, Or, Staged, StagesUseful, Complete;
    ofs := [];
    var prev, cur: FlowBits, was: FlowBits := 0, Zeros(FLOW_BITS), Zeros(FLOW_BITS);
    NoRange(mask);
    NoStages(mask, segments);
    for i := 0 to |segments|
      invariant prev == StartOf(segments, i)
      invariant cur == Range(mask, 0, prev) && was == Range(mask, 0, StartOf(ofs, |ofs|))
      invariant StartOf(ofs, |ofs|) <= prev <= FLOW_U32S && Staged(mask, segments, ofs)
      invariant Complete(mask, segments, ofs, i)
    {
      FoldRange(mask, prev, segments[i]);
      cur := Or(cur, Range(mask, prev, segments[i]));
      RangeDiffers(mask, StartOf(ofs, |ofs|), segments[i]);
      StillComplete(mask, segments, ofs, i, cur != was);
      if cur != was {
        OneMoreStage(mask, segments, ofs, segments[i]);
        ofs, was := ofs + [segments[i]], cur;
      }
      prev := segments[i];
    }
    if ofs != [] {
      FoldRange(mask, prev, FLOW_U32S);
      cur := Or(cur, Range(mask, prev, FLOW_U32S));
      RangeDiffers(mask, ofs[|ofs| - 1], FLOW_U32S);
      LastStage(mask, segments, ofs);
      if cur == was {
        ofs := ofs[..|ofs| - 1];
      }
    } else {
      NoneUseful(mask, segments);
    }
  }

  /** Each of the first 'n' segments with mask bits has an index. */
  ghost predicate Complete(mask: FlowBits, segments: seq<nat>, ofs: seq<nat>, n: nat) {
    forall k :: 0 <= k < n && k < |segments| && AddsBits(mask, StartOf(segments, k), segments[k]) ==> segments[k] in ofs
  }

  lemma StillComplete(mask: FlowBits, segments: seq<nat>, ofs: seq<nat>, i: nat, more: bool)
    requires i < |segments| && Complete(mask, segments, ofs, i) && StartOf(ofs, |ofs|) <= StartOf(segments, i)
    requires more == AddsBits(mask, StartOf(ofs, |ofs|), segments[i])
    ensures Complete(mask, segments, if more then ofs + [segments[i]] else ofs, i + 1)
  {
  }

  lemma NoStages(mask: FlowBits, segments: seq<nat>)
    ensures Staged(mask, segments, []) && Complete(mask, segments, [], 0)
  {
  }

  lemma NoneUseful(mask: FlowBits, segments: seq<nat>)
    requires Complete(mask, segments, [], |segments|)
    ensures StagesUseful(segments, mask, [])
  {
    hide AddsBits;
  }

  lemma OneMoreStage(mask: FlowBits, segments: seq<nat>, ofs: seq<nat>, end: nat)
    requires Staged(mask, segments, ofs) && end in segments && AddsBits(mask, StartOf(ofs, |ofs|), end) && StartOf(ofs, |ofs|) <= end
    ensures Staged(mask, segments, ofs + [end])
  {
    hide AddsBits;
    var more := ofs + [end];
    forall i | 0 <= i < |more| ensures AddsBits(mask, StartOf(more, i), more[i]) {
      if i < |ofs| { assert AddsBits(mask, StartOf(ofs, i), ofs[i]); }
    }
    forall i, j | 0 <= i < j < |more| ensures more[i] <= more[j] {
      assert ofs[i] <= ofs[|ofs| - 1] <= end;
    }
    forall b | b in more ensures b in segments { assert b in ofs || b == end; }
  }

  /** The last index stays if the rest of the mask has bits, and goes if it has none. */
  lemma LastStage(mask: FlowBits, segments: seq<nat>, ofs: seq<nat>)
    requires Staged(mask, segments, ofs) && Complete(mask, segments, ofs, |segments|) && ofs != [] && ofs[|ofs| - 1] <= FLOW_U32S
    ensures AddsBits(mask, ofs[|ofs| - 1], FLOW_U32S) ==> StagesUseful(segments, mask, ofs)
    ensures Staged(mask, segments, ofs[..|ofs| - 1])
    ensures !AddsBits(mask, ofs[|ofs| - 1], FLOW_U32S) ==> StagesUseful(segments, mask, ofs[..|ofs| - 1])
  {
    hide AddsBits, Complete, Staged, StagesUseful;
    ShorterStages(mask, segments, ofs);
    if AddsBits(mask, ofs[|ofs| - 1], FLOW_U32S) {
      KeptStage(mask, segments, ofs);
    } else {
      if |ofs| > 1 { BeforeLast(mask, segments, ofs); }
      DroppedStage(mask, segments, ofs);
    }
  }

  lemma KeptStage(mask: FlowBits, segments: seq<nat>, ofs: seq<nat>)
    requires Staged(mask, segments, ofs) && Complete(mask, segments, ofs, |segments|) && ofs != [] && AddsBits(mask, ofs[|ofs| - 1], FLOW_U32S)
    ensures StagesUseful(segments, mask, ofs)
  {
    hide AddsBits;
  }

  lemma ShorterStages(mask: FlowBits, segments: seq<nat>, ofs: seq<nat>)
    requires Staged(mask, segments, ofs) && ofs != []
    ensures Staged(mask, segments, ofs[..|ofs| - 1])
  {
    hide AddsBits;
    var less := ofs[..|ofs| - 1];
    forall i | 0 <= i < |less| ensures AddsBits(mask, StartOf(less, i), less[i]) {
      assert StartOf(less, i) == StartOf(ofs, i) && less[i] == ofs[i];
    }
  }

  /** Behind any index but the last come the bits of the next. */
  lemma BeforeLast(mask: FlowBits, segments: seq<nat>, ofs: seq<nat>)
    requires Staged(mask, segments, ofs) && |ofs| > 1 && ofs[|ofs| - 1] <= FLOW_U32S
    ensures AddsBits(mask, ofs[|ofs| - 2], FLOW_U32S)
  {
    hide AddsBits;
    var n := |ofs| - 1;
    assert StartOf(ofs, n) == ofs[n - 1] && AddsBits(mask, StartOf(ofs, n), ofs[n]) && ofs[n - 1] <= ofs[n];
    AddsMore(mask, ofs[n - 1], ofs[n], FLOW_U32S);
  }

  lemma DroppedStage(mask: FlowBits, segments: seq<nat>, ofs: seq<nat>)
    requires Complete(mask, segments, ofs, |segments|) && ofs != [] && !AddsBits(mask, ofs[|ofs| - 1], FLOW_U32S)
    requires var less := ofs[..|ofs| - 1]; Staged(mask, segments, less) && (less != [] ==> AddsBits(mask, StartOf(less, |less|), FLOW_U32S))
    ensures StagesUseful(segments, mask, ofs[..|ofs| - 1])
  {
    hide AddsBits;
    var n := |ofs| - 1;
    var less := ofs[..n];
    forall i | 0 <= i < |segments| && AddsBits(mask, StartOf(segments, i), segments[i]) && AddsBits(mask, segments[i], FLOW_U32S)
      ensures segments[i] in less
    {
      assert segments[i] in ofs && segments[i] != ofs[n];
      assert ofs == less + [ofs[n]];
    }
  }

  lemma NoRange(mask: FlowBits)
    ensures Range(mask, 0, 0) == Zeros(FLOW_BITS)
  {
  }

  lemma FoldRange(mask: FlowBits, a: nat, b: nat)
    requires a <= b
    ensures Or(Range(mask, 0, a), Range(mask, a, b)) == Range(mask, 0, b)
  {
    hide Or, Range;
    var l, r := Or(Range(mask, 0, a), Range(mask, a, b)), Range(mask, 0, b);
    assert forall i :: 0 <= i < FLOW_BITS ==> l[i] == r[i];
  }

  lemma RangeDiffers(mask: FlowBits, a: nat, b: nat)
    requires a <= b
    ensures Range(mask, 0, b) != Range(mask, 0, a) <==> AddsBits(mask, a, b)
  {
    hide Range;
    var l, r := Range(mask, 0, a), Range(mask, 0, b);
    if AddsBits(mask, a, b) {
      var i :| 32 * a <= i < 32 * b && i < FLOW_BITS && mask[i];
      assert r[i] && !l[i];
    } else {
      assert forall i :: 0 <= i < FLOW_BITS ==> l[i] == r[i];
    }
  }

  lemma AddsMore(mask: FlowBits, a: nat, b: nat, c: nat)
    requires a <= b <= c && AddsBits(mask, a, b)
    ensures AddsBits(mask, a, c)
  {
  }

  /** `insert_subtable`: an empty subtable for 'mask'. */
  method NewSubtable(h: Hasher, segments: seq<nat>, fields: seq<Field>, mask: FlowBits) returns (s: Subtable)
    requires SegmentsOk(segments)
    ensures SubCore(h, segments, fields, s) && s.rules == [] && s.mask == mask
  {
    hide StagesUseful, AddsBits, TagOf, PrefixLen;
    var ofs := ChooseStages(segments, mask);
    var indices: seq<Index> := seq(|ofs|, i => map[]);
    var plens: seq<nat> := [];
    for j := 0 to |fields|
      invariant |plens| == j && forall i :: 0 <= i < j ==> plens[i] == PrefixLen(mask, fields[i])
    {
      var plen := GetPrefixLen(mask, fields[j]);
      plens := plens + [plen];
    }
    s := Subtable(mask, [], 0, 0, TagOf(h, mask), ofs, indices, plens);
    assert forall i :: 0 <= i < |ofs| ==> ofs[i] in segments;
    EmptyCore(h, s);
  }

  lemma EmptyCore(h: Hasher, s: Subtable)
    requires s.rules == [] && s.maxPriority == s.maxCount == 0 && OfsOk(s)
    requires forall i :: 0 <= i < |s.indices| ==> s.indices[i] == map[]
    requires forall i, j :: 0 <= i < j < |s.ofs| ==> s.ofs[i] <= s.ofs[j]
    ensures ListsOk(s) && RuleSet(s.rules) == {} && Indexed(h, s, {}) && MaxExact({}, 0, 0)
  {
    hide StageHash;
    forall i | 0 <= i < |s.ofs| ensures IndexedAt(h, s, {}, i) {}
  }

  // ----- insert_rule

  /** The incremental hash over the words from 'prev' up to 'end', as every hashing loop computes it. */
  lemma NextHash(h: Hasher, f: FlowBits, mask: FlowBits, prev: nat, end: nat)
    requires prev <= end <= FLOW_U32S
    ensures HashWords(h, f, mask, prev, end, HashWords(h, f, mask, 0, prev, 0)) == HashWords(h, f, mask, 0, end, 0)
    ensures StageHash(h, f, mask, end) == h.finish(HashWords(h, f, mask, 0, end, 0), 4 * MaskWords(mask, end))
  {
    HashByRanges(h, f, mask, 0, prev, end, 0);
  }

  /** Adds 'r' to every index, and hashes it on the way. */
  method FileAll(h: Hasher, s: Subtable, r: Rule) returns (ix: seq<Index>, hash: nat)
    requires OfsOk(s) && forall i, j :: 0 <= i < j < |s.ofs| ==> s.ofs[i] <= s.ofs[j]
    ensures ix == FileRule(h, s, r) && hash == StageHash(h, r.flow, s.mask, FLOW_U32S)
  {
    hide HashWords, MaskWords, StageHash, AddTo, FileRule;
    ix := [];
    var basis, prev := 0, 0;
    StartHash(h, r.flow, s.mask);
    for i := 0 to |s.ofs|
      invariant prev == StartOf(s.ofs, i) <= FLOW_U32S && basis == HashWords(h, r.flow, s.mask, 0, prev, 0)
      invariant |ix| == i && forall j :: 0 <= j < i ==> ix[j] == AddTo(s.indices[j], StageKey(h, s, j, r), r)
    {
      NextHash(h, r.flow, s.mask, prev, s.ofs[i]);
      basis := HashWords(h, r.flow, s.mask, prev, s.ofs[i], basis);
      hash := h.finish(basis, 4 * MaskWords(s.mask, s.ofs[i]));
      ix := ix + [AddTo(s.indices[i], hash, r)];
      prev := s.ofs[i];
    }
    NextHash(h, r.flow, s.mask, prev, FLOW_U32S);
    basis := HashWords(h, r.flow, s.mask, prev, FLOW_U32S, basis);
    hash := h.finish(basis, 4 * MaskWords(s.mask, FLOW_U32S));
  }

  lemma StartHash(h: Hasher, f: FlowBits, mask: FlowBits)
    ensures HashWords(h, f, mask, 0, 0, 0) == 0
  {
  }

  /** Takes 'r' out of every index. */
  method UnfileAll(h: Hasher, s: Subtable, r: Rule) returns (ix: seq<Index>)
    requires OfsOk(s)
    ensures ix == UnfileRule(h, s, r)
  {
    hide StageHash, DropFrom, UnfileRule;
    ix := [];
    for i := 0 to |s.ofs|
      invariant |ix| == i && forall j :: 0 <= j < i ==> ix[j] == DropFrom(s.indices[j], StageKey(h, s, j, r), r)
    {
      ix := ix + [DropFrom(s.indices[i], StageKey(h, s, i, r), r)];
    }
  }

  /** `find_equal`: the list for exactly this match, among those with its hash. */
  method FindEqual(h: Hasher, s: Subtable, flow: FlowBits, hash: nat) returns (k: Option<nat>)
    requires ListsOk(s) && hash == StageHash(h, flow, s.mask, FLOW_U32S)
    ensures match k
            case None => forall l :: 0 <= l < |s.rules| ==> s.rules[l][0].flow != flow
            case Some(l) => l < |s.rules| && s.rules[l][0].flow == flow
  {
    hide StageHash, Descending;
    for l := 0 to |s.rules|
      invariant forall m :: 0 <= m < l ==> s.rules[m][0].flow != flow
    {
      if StageHash(h, s.rules[l][0].flow, s.mask, FLOW_U32S) == hash && s.rules[l][0].flow == flow {
        return Some(l);
      }
    }
    k := None;
  }

  /** The scan for the place that keeps a list in descending priority order. */
  method FindPlace(l: seq<Rule>, r: Rule) returns (p: nat, swap: bool)
    ensures IsPlace(l, p, r, swap)
  {
    p := 0;
    while p < |l|
      invariant p <= |l| && forall a :: 0 <= a < p ==> l[a].priority > r.priority
    {
      if r.priority >= l[p].priority {
        return p, r.priority == l[p].priority;
      }
      p := p + 1;
    }
    swap := false;
  }

  function Gone(was: Option<Rule>): set<Rule> {
    if was.Some? then {was.value} else {}
  }

  /** The rule of 'rules' with the match and priority of 'r', if there is one. */
  ghost predicate IsTwin(rules: set<Rule>, r: Rule, was: Option<Rule>) {
    match was
    case Some(x) => x in rules && x.mask == r.mask && x.flow == r.flow && x.priority == r.priority
    case None => forall x :: x in rules ==> !(x.mask == r.mask && x.flow == r.flow && x.priority == r.priority)
  }

  /** The list part of `insert_rule`: 's' is left with 'r' in place of its twin. */
  method PlaceRule(h: Hasher, s: Subtable, r: Rule, hash: nat) returns (rules': seq<seq<Rule>>, was: Option<Rule>)
    requires ListsOk(s) && r.mask == s.mask && r !in RuleSet(s.rules) && hash == StageHash(h, r.flow, s.mask, FLOW_U32S)
    ensures ListsOk(s.(rules := rules')) && rules' != []
    ensures IsTwin(RuleSet(s.rules), r, was)
    ensures RuleSet(rules') == RuleSet(s.rules) - Gone(was) + {r}
  {
    hide StageHash, ListOk, RuleSet, Placed;
    var head := FindEqual(h, s, r.flow, hash);
    if head == None {
      NewList(s, r);
      rules', was := s.rules + [[r]], None;
    } else {
      var k := head.value;
      var p, swap := FindPlace(s.rules[k], r);
      JoinList(s, k, p, r, swap);
      if swap { TwinOf(s, k, p); }
      rules' := s.rules[k := Placed(s.rules[k], p, r, swap)];
      was := if swap then Some(s.rules[k][p]) else None;
    }
  }

  lemma TwinOf(s: Subtable, k: nat, p: nat)
    requires ListsOk(s) && k < |s.rules| && p < |s.rules[k]|
    ensures var x := s.rules[k][p]; x in RuleSet(s.rules) && x.mask == s.mask && x.flow == s.rules[k][0].flow
  {
    assert ListOk(s.rules[k], s.mask);
    assert s.rules[k][p] in s.rules[k];
  }

  /** A rule that takes its twin's place leaves the maximum alone. */
  lemma MaxSwap(rules: set<Rule>, p: nat, n: nat, x: Rule, r: Rule)
    requires MaxExact(rules, p, n) && x in rules && r !in rules && x.priority == r.priority
    ensures MaxExact(rules - {x} + {r}, p, n)
  {
    assert AtPriority(rules - {x} + {r}, p) == if r.priority == p then AtPriority(rules, p) - {x} + {r} else AtPriority(rules, p);
  }

  /** Only the mask, the stages and the indices matter to the indices. */
  lemma IndexedSame(h: Hasher, s: Subtable, t: Subtable, all: set<Rule>)
    requires Indexed(h, s, all) && s.mask == t.mask && s.ofs == t.ofs && s.indices == t.indices
    ensures Indexed(h, t, all)
  {
    hide StageHash, Chain;
    forall i | 0 <= i < |t.ofs| ensures IndexedAt(h, t, all, i) {
      assert IndexedAt(h, s, all, i);
      assert forall r :: StageKey(h, t, i, r) == StageKey(h, s, i, r);
    }
  }

  /** `insert_rule`, except for the order of the subtables. */
  method InsertRule(h: Hasher, ghost segments: seq<nat>, ghost fields: seq<Field>, s: Subtable, r: Rule)
    returns (s': Subtable, was: Option<Rule>)
    requires SubCore(h, segments, fields, s) && r.mask == s.mask && r !in RuleSet(s.rules)
    ensures SubExact(h, segments, fields, s') && s'.mask == s.mask && s'.plens == s.plens
    ensures IsTwin(RuleSet(s.rules), r, was)
    ensures RuleSet(s'.rules) == RuleSet(s.rules) - Gone(was) + {r}
    ensures s'.maxPriority == if was.None? && r.priority > s.maxPriority then r.priority else s.maxPriority
  {
    hide StageHash, ListsOk, RuleSet, Indexed, MaxExact, TagOf, StagesUseful, PrefixLen, FileRule, UnfileRule;
    ghost var all := RuleSet(s.rules);
    var ix, hash := FileAllOf(h, s, r);
    var t := s.(indices := ix);
    var rules', twin := PlaceRule(h, s, r, hash);
    was := twin;
    if was == None {
      var p, n := s.maxPriority, s.maxCount;
      MaxAfterInsert(all, p, n, r);
      if r.priority == p {
        n := n + 1;
      } else if r.priority > p {
        p, n := r.priority, 1;
      }
      s' := s.(rules := rules', indices := ix, maxPriority := p, maxCount := n);
      assert all - Gone(was) + {r} == all + {r};
    } else {
      MaxSwap(all, s.maxPriority, s.maxCount, was.value, r);
      var less := UnfileAllOf(h, t, was.value, all + {r});
      s' := s.(rules := rules', indices := less);
      assert all - Gone(was) + {r} == all + {r} - {was.value};
    }
    IndexedSame(h, s.(indices := s'.indices), s', RuleSet(s'.rules));
    SameLists(s.(rules := rules'), s');
  }

  lemma SameLists(s: Subtable, t: Subtable)
    requires ListsOk(s) && s.rules == t.rules && s.mask == t.mask
    ensures ListsOk(t)
  {
  }

  method FileAllOf(h: Hasher, s: Subtable, r: Rule) returns (ix: seq<Index>, hash: nat)
    requires Indexed(h, s, RuleSet(s.rules))
    ensures Indexed(h, s.(indices := ix), RuleSet(s.rules) + {r}) && hash == StageHash(h, r.flow, s.mask, FLOW_U32S)
  {
    hide IndexedAt, StageHash, FileRule;
    FileKeeps(h, s, RuleSet(s.rules), r);
    ix, hash := FileAll(h, s, r);
  }

  method UnfileAllOf(h: Hasher, s: Subtable, r: Rule, ghost all: set<Rule>) returns (ix: seq<Index>)
    requires Indexed(h, s, all)
    ensures Indexed(h, s.(indices := ix), all - {r})
  {
    hide IndexedAt, StageHash, UnfileRule;
    UnfileKeeps(h, s, all, r);
    ix := UnfileAll(h, s, r);
  }

  // ----- classifier_remove

  /** Where in its list a rule is. */
  method FindInList(l: seq<Rule>, r: Rule) returns (p: nat)
    requires r in l
    ensures p < |l| && l[p] == r
  {
    p := 0;
    while l[p] != r
      invariant p < |l| && exists q :: p <= q < |l| && l[q] == r
      decreases |l| - p
    {
      p := p + 1;
    }
  }

  /** The list part of `classifier_remove`. */
  method UnplaceRule(h: Hasher, s: Subtable, r: Rule) returns (rules': seq<seq<Rule>>)
    requires ListsOk(s) && r in RuleSet(s.rules)
    ensures ListsOk(s.(rules := rules')) && RuleSet(rules') == RuleSet(s.rules) - {r}
  {
    hide StageHash, ListOk, RuleSet, Removed;
    var head := FindEqual(h, s, r.flow, StageHash(h, r.flow, s.mask, FLOW_U32S));
    ListOf(s, r);
    var k := head.value;
    SameFlowSameList(s, k, r);
    var p := FindInList(s.rules[k], r);
    RemovedOk(s, k, p);
    rules' := Removed(s.rules, k, p);
  }

  lemma ListOf(s: Subtable, r: Rule)
    requires ListsOk(s) && r in RuleSet(s.rules)
    ensures exists k :: 0 <= k < |s.rules| && s.rules[k][0].flow == r.flow
  {
    var k :| 0 <= k < |s.rules| && r in s.rules[k];
    assert ListOk(s.rules[k], s.mask);
  }

  /** `classifier_remove` and `update_subtables_after_removal`, except for the order of the subtables. */
  method RemoveRule(h: Hasher, ghost segments: seq<nat>, ghost fields: seq<Field>, s: Subtable, r: Rule) returns (s': Subtable)
    requires SubCore(h, segments, fields, s) && r in RuleSet(s.rules)
    ensures SubCore(h, segments, fields, s') && s'.mask == s.mask
    ensures RuleSet(s'.rules) == RuleSet(s.rules) - {r}
    ensures s'.maxPriority <= s.maxPriority
  {
    hide StageHash, ListsOk, RuleSet, Indexed, MaxExact, TagOf, StagesUseful, PrefixLen, UnfileRule;
    ghost var all := RuleSet(s.rules);
    var ix := UnfileAllOf(h, s, r, all);
    var rules' := UnplaceRule(h, s, r);
    MaxAfterRemove(all, s.maxPriority, s.maxCount, r);
    MaxBounds(all, s.maxPriority, s.maxCount, r);
    var p, n := s.maxPriority, s.maxCount;
    if r.priority == p {
      if n == 1 {
        p, n := MaxOfHeads(s.(rules := rules'));
        MaxSmaller(all, s.maxPriority, s.maxCount, r, p, n);
      } else {
        n := n - 1;
      }
    }
    s' := s.(rules := rules', indices := ix, maxPriority := p, maxCount := n);
    IndexedSame(h, s.(indices := ix), s', RuleSet(s'.rules));
    SameLists(s.(rules := rules'), s');
  }

  lemma MaxBounds(rules: set<Rule>, p: nat, n: nat, r: Rule)
    requires MaxExact(rules, p, n) && r in rules
    ensures r.priority <= p && n >= 1
  {
  }

  lemma MaxSmaller(rules: set<Rule>, p: nat, n: nat, r: Rule, p': nat, n': nat)
    requires MaxExact(rules, p, n) && MaxExact(rules - {r}, p', n')
    ensures p' <= p
  {
    if rules - {r} != {} {
      var x :| x in AtPriority(rules - {r}, p');
    }
  }
}
