/**
 The whole contents of a classifier and what holds of them between calls, with the
 effect of exchanging one subtable.
 */
module State {
  import opened Bits
  import opened Flow
  import opened Lookup
  import opened Tables
  import opened Classify
  import opened Upkeep
  import opened PrefixMasks
  import H = TrieClass
  import T = TrieModel

  /** A subtable's lists, indices and totals are consistent, with the hash and with the fields that have tries. */
  ghost predicate SubCore(h: Hasher, segments: seq<nat>, fields: seq<Field>, s: Subtable) {
    && ListsOk(s)
    && Indexed(h, s, RuleSet(s.rules))
    && MaxExact(RuleSet(s.rules), s.maxPriority, s.maxCount)
    && s.tag == TagOf(h, s.mask)
    && StagesUseful(segments, s.mask, s.ofs) && (forall b :: b in s.ofs ==> b in segments)
    && |s.plens| == |fields| && forall j :: 0 <= j < |fields| ==> s.plens[j] == PrefixLen(s.mask, fields[j])
  }

  /** Some bit of 'mask' lies in the words from 'start' up to 'end'. */
  ghost predicate AddsBits(mask: FlowBits, start: nat, end: nat) {
    exists i :: 32 * start <= i < 32 * end && i < FLOW_BITS && mask[i]
  }

  /**
   Every stage, the one after the last index included, has mask bits of its own; and there
   is an index at the end of every segment with mask bits that is not the last of them.
   */
  ghost predicate StagesUseful(segments: seq<nat>, mask: FlowBits, ofs: seq<nat>) {
    && (forall i :: 0 <= i < |ofs| ==> AddsBits(mask, StartOf(ofs, i), ofs[i]))
    && (ofs != [] ==> AddsBits(mask, StartOf(ofs, |ofs|), FLOW_U32S))
    && (forall i :: 0 <= i < |segments| && AddsBits(mask, StartOf(segments, i), segments[i]) && AddsBits(mask, segments[i], FLOW_U32S) ==> segments[i] in ofs)
  }

  function StartOf(ofs: seq<nat>, i: nat): nat
    requires i <= |ofs|
  {
    if i == 0 then 0 else ofs[i - 1]
  }

  ghost predicate SubExact(h: Hasher, segments: seq<nat>, fields: seq<Field>, s: Subtable) {
    SubCore(h, segments, fields, s) && s.rules != []
  }

  /** The subtables have distinct masks and hold exactly the rules in 'all'. */
  ghost predicate TablesOk(h: Hasher, segments: seq<nat>, fields: seq<Field>, subs: multiset<Subtable>, all: set<Rule>) {
    && (forall s :: s in subs ==> subs[s] == 1 && SubExact(h, segments, fields, s))
    && (forall s, t :: s in subs && t in subs && s.mask == t.mask ==> s == t)
    && (forall s, r :: s in subs && r in RuleSet(s.rules) ==> r in all)
    && (forall r :: r in all ==> exists s :: s in subs && r in RuleSet(s.rules))
  }

  /** There is a partition for exactly the metadata values in use, and it tracks their rules. */
  ghost predicate PartsOk(h: Hasher, parts: map<Bits, Partition>, all: set<Rule>) {
    && (forall m :: m in parts ==> RulesAt(all, m) != {} && Tracks(h, parts[m], RulesAt(all, m)))
    && (forall m :: RulesAt(all, m) != {} ==> m in parts)
  }

  /** The prefix that 'r' stores in a trie on the field. */
  function Key(r: Rule, fld: Field): Bits {
    FieldBits(r.flow, fld)[..PrefixLen(r.mask, fld)]
  }

  function KeyRules(all: set<Rule>, fld: Field, k: Bits): set<Rule> {
    set r | r in all && PrefixLen(r.mask, fld) > 0 && Key(r, fld) == k
  }

  /** Each trie stores the prefix of each rule with a prefix mask on its field, once per rule. */
  ghost predicate BagsOk(fields: seq<Field>, bags: seq<multiset<Bits>>, all: set<Rule>) {
    && |bags| == |fields|
    && forall j, k :: 0 <= j < |fields| ==> bags[j][k] == |KeyRules(all, fields[j], k)|
  }

  /** The tries are on the fields and hold the bags. */
  ghost predicate Hold(tries: seq<Trie>, fields: seq<Field>, bags: seq<multiset<Bits>>) {
    && |tries| == |fields| == |bags|
    && forall j :: 0 <= j < |tries| ==> tries[j].field == fields[j] && H.Stores(tries[j].tree, bags[j])
  }

  function TagsOfParts(parts: map<Bits, Partition>): map<Bits, set<nat>> {
    map m | m in parts :: parts[m].tags
  }

  /** A subtable with consistent totals is one that lookup can search. */
  lemma ExactIsOk(segments: seq<nat>, fields: seq<Field>, bags: seq<multiset<Bits>>, parts: map<Bits, Partition>,
                  s: Subtable, all: set<Rule>, v: View)
    requires SubExact(v.h, segments, fields, s) && BagsOk(fields, bags, all) && PartsOk(v.h, parts, all)
    requires RuleSet(s.rules) <= all && Hold(v.tries, fields, bags) && v.partitions == TagsOfParts(parts)
    ensures SubtableOk(v, s)
  {
    hide ListsOk, Indexed, IndicesOk, PartsOk, BagsOk, Hold, TagOf, RuleSet, PrefixLen, TriesCover, TagsOk, AtPriority, StagesUseful;
    IndexedIsOk(v.h, s);
    ExactCovers(fields, v.tries, bags, s, all);
    ExactTags(v.h, parts, s, all, v);
    forall r | Has(s, r) ensures r.priority <= s.maxPriority { HasIsIn(s, r); }
  }

  lemma ExactCovers(fields: seq<Field>, tries: seq<Trie>, bags: seq<multiset<Bits>>, s: Subtable, all: set<Rule>)
    requires ListsOk(s) && |s.plens| == |fields| && forall j :: 0 <= j < |fields| ==> s.plens[j] == PrefixLen(s.mask, fields[j])
    requires BagsOk(fields, bags, all) && Hold(tries, fields, bags) && RuleSet(s.rules) <= all
    ensures TriesCover(tries, s)
  {
    hide ListsOk, RuleSet, PrefixLen, Key;
    forall j, r | 0 <= j < |tries| && s.plens[j] > 0 && Has(s, r)
      ensures T.Count(tries[j].tree, FieldBits(r.flow, tries[j].field)[..s.plens[j]]) > 0
    {
      HasIsIn(s, r);
      HasMask(s, r);
      KeyIs(r, tries[j].field);
      assert r in KeyRules(all, tries[j].field, Key(r, tries[j].field));
      assert bags[j][Key(r, tries[j].field)] > 0;
    }
  }

  lemma KeyIs(r: Rule, fld: Field)
    ensures Key(r, fld) == FieldBits(r.flow, fld)[..PrefixLen(r.mask, fld)]
  {
  }

  lemma ExactTags(h: Hasher, parts: map<Bits, Partition>, s: Subtable, all: set<Rule>, v: View)
    requires ListsOk(s) && s.tag == TagOf(h, s.mask) && PartsOk(h, parts, all) && RuleSet(s.rules) <= all
    requires v.partitions == TagsOfParts(parts)
    ensures TagsOk(v, s)
  {
    hide ListsOk, RuleSet, Tracks, TagFrom, Metadata;
    if ExactMetadata(s.mask) {
      forall r | Has(s, r) ensures Metadata(r.flow) in v.partitions && s.tag <= v.partitions[Metadata(r.flow)] {
        HasIsIn(s, r);
        HasMask(s, r);
        var m := Metadata(r.flow);
        assert r in RulesAt(all, m);
        TracksMeans(h, parts[m], RulesAt(all, m));
      }
    }
  }

  /** All that the classifier keeps between calls. */
  ghost predicate Consistent(h: Hasher, segments: seq<nat>, fields: seq<Field>, subs: seq<Subtable>, parts: map<Bits, Partition>,
                             bags: seq<multiset<Bits>>, all: set<Rule>)
  {
    && TablesOk(h, segments, fields, multiset(subs), all)
    && Sorted(subs)
    && PartsOk(h, parts, all)
    && BagsOk(fields, bags, all)
  }

  /** What the classifier's operations keep is what lookup relies on. */
  lemma StateGivesView(segments: seq<nat>, fields: seq<Field>, parts: map<Bits, Partition>,
                       bags: seq<multiset<Bits>>, all: set<Rule>, v: View)
    requires Consistent(v.h, segments, fields, v.subtables, parts, bags, all)
    requires Hold(v.tries, fields, bags) && v.partitions == TagsOfParts(parts)
    ensures ViewOk(v)
    ensures forall r :: InView(v, r) <==> r in all
  {
    hide SubExact, SubtableOk, PartsOk, BagsOk, Hold, RuleSet, TagsOfParts, Has, PartitionsOk;
    var subs := v.subtables;
    forall k | 0 <= k < |subs| ensures SubtableOk(v, subs[k]) {
      assert subs[k] in multiset(subs);
      ExactIsOk(segments, fields, bags, parts, subs[k], all, v);
    }
    PartsGiveView(v.h, parts, all, v);
    forall r ensures InView(v, r) <==> r in all {
      if InView(v, r) {
        var k :| 0 <= k < |subs| && Has(subs[k], r);
        HasIsIn(subs[k], r);
        assert subs[k] in multiset(subs);
      }
      if r in all {
        var s :| s in multiset(subs) && r in RuleSet(s.rules);
        var k :| 0 <= k < |subs| && subs[k] == s;
        HasIsIn(subs[k], r);
      }
    }
  }

  lemma PartsGiveView(h: Hasher, parts: map<Bits, Partition>, all: set<Rule>, v: View)
    requires PartsOk(h, parts, all) && v.partitions == TagsOfParts(parts)
    ensures PartitionsOk(v)
  {
    hide Tracks, RulesAt;
    forall m | m in v.partitions ensures v.partitions[m] <= TAG_BITS && |v.partitions[m]| >= 2 {
      TracksMeans(h, parts[m], RulesAt(all, m));
    }
  }

  // ----- what a change of one subtable does

  /** A subtable's rules are the rules with its mask. */
  lemma RulesOf(h: Hasher, segments: seq<nat>, fields: seq<Field>, subs: multiset<Subtable>, all: set<Rule>, s: Subtable, r: Rule)
    requires TablesOk(h, segments, fields, subs, all) && s in subs
    ensures r in RuleSet(s.rules) <==> r in all && r.mask == s.mask
  {
    hide Indexed, MaxExact, ListsOk, TagOf, PrefixLen, StagesUseful;
    forall t | t in subs && r in RuleSet(t.rules) ensures r.mask == t.mask {
      assert SubExact(h, segments, fields, t);
      HasIsIn(t, r);
      HasMask(t, r);
    }
    if r in all {
      var t :| t in subs && r in RuleSet(t.rules);
    }
  }

  /** Exchanging a subtable for one with the same mask. */
  lemma TablesExchange(h: Hasher, segments: seq<nat>, fields: seq<Field>, subs: multiset<Subtable>, all: set<Rule>, s: Subtable, s': Subtable)
    requires TablesOk(h, segments, fields, subs, all) && s in subs
    requires SubExact(h, segments, fields, s') && s'.mask == s.mask
    ensures TablesOk(h, segments, fields, subs - multiset{s} + multiset{s'}, all - RuleSet(s.rules) + RuleSet(s'.rules))
  {
    TablesDrop(h, segments, fields, subs, all, s);
    TablesAdd(h, segments, fields, subs - multiset{s}, all - RuleSet(s.rules), s');
  }

  /** `destroy_subtable`. */
  lemma TablesDrop(h: Hasher, segments: seq<nat>, fields: seq<Field>, subs: multiset<Subtable>, all: set<Rule>, s: Subtable)
    requires TablesOk(h, segments, fields, subs, all) && s in subs
    ensures TablesOk(h, segments, fields, subs - multiset{s}, all - RuleSet(s.rules))
    ensures forall t :: t in subs - multiset{s} ==> t.mask != s.mask
  {
    hide SubExact, RuleSet;
    forall r ensures r in RuleSet(s.rules) <==> r in all && r.mask == s.mask { RulesOf(h, segments, fields, subs, all, s, r); }
    var subs' := subs - multiset{s};
    forall t, r | t in subs' && r in RuleSet(t.rules) ensures r in all - RuleSet(s.rules) {
      RulesOf(h, segments, fields, subs, all, t, r);
    }
    forall r | r in all - RuleSet(s.rules) ensures exists t :: t in subs' && r in RuleSet(t.rules) {
      var t :| t in subs && r in RuleSet(t.rules);
      assert t in subs';
    }
  }

  /** `insert_subtable`, once it has its rules. */
  lemma TablesAdd(h: Hasher, segments: seq<nat>, fields: seq<Field>, subs: multiset<Subtable>, all: set<Rule>, s: Subtable)
    requires TablesOk(h, segments, fields, subs, all) && SubExact(h, segments, fields, s)
    requires forall t :: t in subs ==> t.mask != s.mask
    ensures TablesOk(h, segments, fields, subs + multiset{s}, all + RuleSet(s.rules))
  {
    hide SubExact, RuleSet;
    var subs' := subs + multiset{s};
    forall r | r in all + RuleSet(s.rules) ensures exists t :: t in subs' && r in RuleSet(t.rules) {
      if r in all {
        var t :| t in subs && r in RuleSet(t.rules);
        assert t in subs';
      } else {
        assert s in subs';
      }
    }
  }

  // ----- what one rule more or less does

  function PartAt(parts: map<Bits, Partition>, m: Bits): Partition {
    if m in parts then parts[m] else Partition({}, seq(32, i => 0))
  }

  /** A rule without a fixed metadata value concerns no partition. */
  lemma PartsIgnore(h: Hasher, parts: map<Bits, Partition>, all: set<Rule>, all': set<Rule>)
    requires PartsOk(h, parts, all)
    requires forall m :: RulesAt(all', m) == RulesAt(all, m)
    ensures PartsOk(h, parts, all')
  {
    hide Tracks, RulesAt;
  }

  lemma EmptyPart(h: Hasher, parts: map<Bits, Partition>, all: set<Rule>, m: Bits)
    requires PartsOk(h, parts, all)
    ensures Tracks(h, PartAt(parts, m), RulesAt(all, m))
  {
    hide RulesAt, TagOf;
    if m !in parts {
      assert forall b :: 0 <= b < 32 ==> WithBit(h, RulesAt(all, m), b) == {};
    }
  }

  /** A change of the rules of one metadata value, followed by its partition. */
  lemma PartsFollow(h: Hasher, parts: map<Bits, Partition>, all: set<Rule>, all': set<Rule>, m: Bits, p: Partition)
    requires PartsOk(h, parts, all) && Tracks(h, p, RulesAt(all', m))
    requires forall n :: n != m ==> RulesAt(all', n) == RulesAt(all, n)
    ensures PartsOk(h, if p.tags == {} then parts - {m} else parts[m := p], all')
  {
    hide Tracks, RulesAt;
    TracksMeans(h, p, RulesAt(all', m));
  }

  /** The same with a rule that takes the place of one with the same match. */
  lemma PartsSwap(h: Hasher, parts: map<Bits, Partition>, all: set<Rule>, x: Rule, r: Rule)
    requires PartsOk(h, parts, all) && x in all && r !in all && x.mask == r.mask && x.flow == r.flow
    ensures PartsOk(h, parts, all - {x} + {r})
  {
    hide Tracks, RulesAt;
    var all' := all - {x} + {r};
    forall m ensures (RulesAt(all', m) == {} <==> RulesAt(all, m) == {}) &&
                     (m in parts ==> Tracks(h, parts[m], RulesAt(all', m)))
    {
      TracksSwap(h, all, x, r, m);
    }
  }

  lemma TracksSwap(h: Hasher, all: set<Rule>, x: Rule, r: Rule, m: Bits)
    requires x in all && r !in all && x.mask == r.mask && x.flow == r.flow
    ensures RulesAt(all - {x} + {r}, m) == {} <==> RulesAt(all, m) == {}
    ensures forall p :: Tracks(h, p, RulesAt(all, m)) ==> Tracks(h, p, RulesAt(all - {x} + {r}, m))
  {
    hide TagOf, Metadata, WithBit;
    var at, at' := RulesAt(all, m), RulesAt(all - {x} + {r}, m);
    if x in at {
      assert at' == at - {x} + {r};
      forall b ensures |WithBit(h, at', b)| == |WithBit(h, at, b)| { WithBitSwap(h, at, x, r, b); }
    } else {
      assert at' == at;
    }
  }

  lemma WithBitSwap(h: Hasher, at: set<Rule>, x: Rule, r: Rule, b: nat)
    requires x in at && r !in at && x.mask == r.mask
    ensures |WithBit(h, at - {x} + {r}, b)| == |WithBit(h, at, b)|
  {
    hide TagOf;
    assert WithBit(h, at - {x} + {r}, b) == if b in TagOf(h, r.mask) then WithBit(h, at, b) - {x} + {r} else WithBit(h, at, b);
  }

  lemma KeysSwap(all: set<Rule>, fld: Field, x: Rule, r: Rule, k: Bits)
    requires x in all && r !in all && x.mask == r.mask && x.flow == r.flow
    ensures |KeyRules(all - {x} + {r}, fld, k)| == |KeyRules(all, fld, k)|
  {
    hide PrefixLen;
    assert Key(r, fld) == Key(x, fld);
    KeysLose(all, fld, x, k);
    KeysGain(all - {x}, fld, r, k);
  }

  /** The prefixes stored in a trie with one rule more, and with one rule less. */
  lemma KeysGain(all: set<Rule>, fld: Field, r: Rule, k: Bits)
    requires r !in all
    ensures |KeyRules(all + {r}, fld, k)| ==
            |KeyRules(all, fld, k)| + if PrefixLen(r.mask, fld) > 0 && Key(r, fld) == k then 1 else 0
  {
    hide PrefixLen;
    var mine := PrefixLen(r.mask, fld) > 0 && Key(r, fld) == k;
    assert KeyRules(all + {r}, fld, k) == KeyRules(all, fld, k) + if mine then {r} else {};
  }

  lemma KeysLose(all: set<Rule>, fld: Field, r: Rule, k: Bits)
    requires r in all
    ensures |KeyRules(all - {r}, fld, k)| ==
            |KeyRules(all, fld, k)| - if PrefixLen(r.mask, fld) > 0 && Key(r, fld) == k then 1 else 0
  {
    hide PrefixLen;
    var mine := PrefixLen(r.mask, fld) > 0 && Key(r, fld) == k;
    assert KeyRules(all - {r}, fld, k) == KeyRules(all, fld, k) - if mine then {r} else {};
  }
}
