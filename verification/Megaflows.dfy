/** When the regions of lookups are safe and disjoint: conditions on a whole classifier. */
module Megaflows {
  import opened Bits
  import opened Flow
  import opened Lookup
  import opened Tables
  import opened Classify
  import opened Upkeep
  import opened State

  /** No segment ends inside the field. */
  ghost predicate InOneSegment(segments: seq<nat>, fld: Field) {
    forall b :: b in segments ==> b <= fld.ofs || fld.ofs + fld.bits / 32 <= b
  }

  /** A field inside one segment is inside one stage of every subtable. */
  lemma OneTrieBySegments(segments: seq<nat>, fields: seq<Field>, all: set<Rule>, v: View, f: FlowBits, g: FlowBits)
    requires TablesOk(v.h, segments, fields, multiset(v.subtables), all) && |v.tries| <= 1
    requires forall t :: t in v.tries ==> InOneSegment(segments, t.field) && t.field.prereq(f) == t.field.prereq(g)
    ensures OneTrieEverywhere(v, f, g)
  {
    hide ListsOk, Indexed, MaxExact, TagOf, StagesUseful, RuleSet;
    forall k | 0 <= k < |v.subtables| ensures OneTrie(v.subtables[k], v.tries, f, g) {
      assert v.subtables[k] in multiset(v.subtables);
      assert SubExact(v.h, segments, fields, v.subtables[k]);
    }
  }

  /** Without rules that fix their metadata, the mask alone decides. */
  lemma SoundWithoutPartitions(v: View, f: FlowBits, g: FlowBits)
    requires ViewOk(v) && v.partitions == map[] && InRegion(v, f, g)
    ensures LookupRule(v, g, Zeros(FLOW_BITS)).rule == LookupRule(v, f, Zeros(FLOW_BITS)).rule
  {
    hide ViewOk, LookupRule, AgreeOn;
    WildcardSound(v, f, g, Zeros(FLOW_BITS), Zeros(FLOW_BITS));
  }

  // ----- when the mask alone decides

  /** The rule found for 'f' matches every flow in the region. */
  lemma {:induction false} FoundMatches(v: View, f: FlowBits, g: FlowBits, k: nat, best: Option<Rule>, wc: FlowBits)
    requires ViewOk(v) && AgreeOn(LookupFrom(v, f, k, best, wc).wc, f, g) && (best.Some? ==> Matches(best.value, g))
    ensures LookupFrom(v, f, k, best, wc).rule.Some? ==> Matches(LookupFrom(v, f, k, best, wc).rule.value, g)
    decreases |v.subtables| - k
  {
    hide ListsOk, IndicesOk, TriesCover, FirstMatch, FindFrom, Intersects, TagsOk, Within, NoneMatches, PartitionsOk, AgreeOn, Tags, Matches;
    if k < |v.subtables| && !(best.Some? && v.subtables[k].maxPriority <= best.value.priority) {
      var s := v.subtables[k];
      assert SubtableOk(v, s);
      if !Intersects(Tags(v, f), s.tag) {
        FoundMatches(v, f, g, k + 1, best, wc);
      } else {
        FindIsSound(v.h, s, v.tries, f, 0, 0, false, wc);
        var r := FindFrom(v.h, s, v.tries, f, 0, 0, false, wc);
        var best' := Better(best, r.rule);
        SameAsPlain(v, f, k + 1, best', r.wc);
        AgreeLess(r.wc, LookupFrom(v, f, k + 1, best', r.wc).wc, f, g);
        FirstMatchNone(s, g);
        FoundMatches(v, f, g, k + 1, best', r.wc);
      }
    }
  }

  /** The flow that is like 'f' except where the rule looks. */
  function Mixed(f: FlowBits, r: Rule): (g: FlowBits) {
    seq(FLOW_BITS, i requires 0 <= i < FLOW_BITS => if r.mask[i] then r.flow[i] else f[i])
  }

  /** Some flow that 'm' cannot tell from 'f' matches 'r'. */
  ghost predicate Reaches(m: FlowBits, f: FlowBits, r: Rule) {
    forall i :: 0 <= i < FLOW_BITS && m[i] && r.mask[i] ==> r.flow[i] == f[i]
  }

  lemma ReachesMeans(m: FlowBits, f: FlowBits, r: Rule)
    ensures Reaches(m, f, r) ==> AgreeOn(m, f, Mixed(f, r)) && Matches(r, Mixed(f, r))
    ensures forall g :: AgreeOn(m, f, g) && Matches(r, g) ==> Reaches(m, f, r)
  {
  }

  /**
   The header's promise, exactly: the rule that is found for 'f' is a best rule for every
   flow in the region if and only if it is at least as good as every rule that some flow
   in the region matches.
   */
  lemma SameRuleExact(v: View, f: FlowBits)
    requires ViewOk(v)
    ensures var found := LookupRule(v, f, Zeros(FLOW_BITS));
            (forall g :: InRegion(v, f, g) ==> IsBest(v, g, found.rule)) <==>
            forall r :: InView(v, r) && Reaches(found.wc, f, r) ==> found.rule.Some? && r.priority <= found.rule.value.priority
  {
    hide ViewOk, LookupRule, LookupFrom, AgreeOn, Matches, InView, Reaches, Mixed;
    var found := LookupRule(v, f, Zeros(FLOW_BITS));
    LookupReturnsBest(v, f, Zeros(FLOW_BITS));
    if forall g :: InRegion(v, f, g) ==> IsBest(v, g, found.rule) {
      forall r | InView(v, r) && Reaches(found.wc, f, r) ensures found.rule.Some? && r.priority <= found.rule.value.priority {
        ReachesMeans(found.wc, f, r);
        assert InRegion(v, f, Mixed(f, r));
      }
    }
    if forall r :: InView(v, r) && Reaches(found.wc, f, r) ==> found.rule.Some? && r.priority <= found.rule.value.priority {
      forall g | InRegion(v, f, g) ensures IsBest(v, g, found.rule) {
        assert found.rule.Some? ==> Matches(found.rule.value, g) by { FoundAgain(v, f, g); }
        forall r | InView(v, r) && Matches(r, g) ensures found.rule.Some? && r.priority <= found.rule.value.priority {
          ReachesMeans(found.wc, f, r);
        }
      }
    }
  }

  lemma FoundAgain(v: View, f: FlowBits, g: FlowBits)
    requires ViewOk(v) && InRegion(v, f, g)
    ensures var r := LookupRule(v, f, Zeros(FLOW_BITS)).rule; r.Some? ==> Matches(r.value, g)
  {
    hide ViewOk, LookupFrom, Matches;
    FoundMatches(v, f, g, 0, None, Zeros(FLOW_BITS));
  }

  /** The tags of the flow's metadata meet those of every subtable, so that none is skipped. */
  ghost predicate SkipsNothing(v: View, f: FlowBits) {
    forall k :: 0 <= k < |v.subtables| ==> Intersects(Tags(v, f), v.subtables[k].tag)
  }

  lemma {:induction false} PlainSameUnskipped(v: View, f: FlowBits, g: FlowBits, k: nat, best: Option<Rule>, wc: FlowBits)
    requires ViewOk(v) && SkipsNothing(v, f) && AgreeOn(LookupFrom(v, f, k, best, wc).wc, f, g)
    ensures LookupPlain(v, g, k, best) == LookupPlain(v, f, k, best)
    decreases |v.subtables| - k
  {
    hide ListsOk, IndicesOk, TriesCover, FirstMatch, FindMatch, FindFrom, Intersects, TagsOk, Within, PartitionsOk, AgreeOn, Tags, Has, Matches;
    if k < |v.subtables| && !(best.Some? && v.subtables[k].maxPriority <= best.value.priority) {
      var s := v.subtables[k];
      assert SubtableOk(v, s);
      FindIsSound(v.h, s, v.tries, f, 0, 0, false, wc);
      FindMatchIsFirst(v.h, s, f, 0);
      FindMatchIsFirst(v.h, s, g, 0);
      var r := FindFrom(v.h, s, v.tries, f, 0, 0, false, wc);
      var best' := Better(best, r.rule);
      SameAsPlain(v, f, k + 1, best', r.wc);
      AgreeLess(r.wc, LookupFrom(v, f, k + 1, best', r.wc).wc, f, g);
      PlainSameUnskipped(v, f, g, k + 1, best', r.wc);
      SkippedHasNone(v, s, g);
    }
  }

  lemma SkippedHasNone(v: View, s: Subtable, g: FlowBits)
    requires SubtableOk(v, s) && PartitionsOk(v)
    ensures !Intersects(Tags(v, g), s.tag) ==> FirstMatch(s, g, 0) == None
  {
    hide ListsOk, IndicesOk, TriesCover, FirstMatch, Intersects, TagsOk, PartitionsOk, Tags, Matches;
    FirstMatchNone(s, g);
    if FirstMatch(s, g, 0).Some? { TagMeets(v, s, g, FirstMatch(s, g, 0).value); }
  }

  /** What a caller can see before the lookup: if no subtable is skipped for 'f', the mask alone decides. */
  lemma SoundUnskipped(v: View, f: FlowBits, g: FlowBits)
    requires ViewOk(v) && SkipsNothing(v, f) && InRegion(v, f, g)
    ensures LookupRule(v, g, Zeros(FLOW_BITS)).rule == LookupRule(v, f, Zeros(FLOW_BITS)).rule
  {
    hide ViewOk, LookupFrom, LookupPlain, AgreeOn, SkipsNothing;
    PlainSameUnskipped(v, f, g, 0, None, Zeros(FLOW_BITS));
    LookupReturnsBest(v, f, Zeros(FLOW_BITS));
    LookupReturnsBest(v, g, Zeros(FLOW_BITS));
  }

  // ----- the header's claim does not hold across metadata values

  /** While all rules fix the same metadata, a flow with other metadata leaves no trace in the mask. */
  lemma {:induction false} SkipsAll(v: View, f: FlowBits, k: nat)
    requires ViewOk(v) && forall l :: 0 <= l < |v.subtables| ==> !Intersects(Tags(v, f), v.subtables[l].tag)
    ensures LookupFrom(v, f, k, None, Zeros(FLOW_BITS)) == Found(None, Zeros(FLOW_BITS))
    decreases |v.subtables| - k
  {
    hide ViewOk, Intersects, Tags, FindFrom;
    if k < |v.subtables| { SkipsAll(v, f, k + 1); }
  }

  lemma OneRuleSkips(segments: seq<nat>, fields: seq<Field>, parts: map<Bits, Partition>, v: View, r: Rule, f: FlowBits)
    requires ViewOk(v) && TablesOk(v.h, segments, fields, multiset(v.subtables), {r}) && PartsOk(v.h, parts, {r}) && v.partitions == TagsOfParts(parts)
    requires Metadata(f) != Metadata(r.flow) && !Intersects(TAG_ARBITRARY, TagOf(v.h, r.mask))
    ensures LookupRule(v, f, Zeros(FLOW_BITS)) == Found(None, Zeros(FLOW_BITS))
  {
    hide ViewOk, ListsOk, Indexed, MaxExact, StagesUseful, Metadata, TagOf, Intersects, RuleSet, ExactMetadata, Tracks, LookupFrom;
    assert RulesAt({r}, Metadata(f)) == {};
    assert Tags(v, f) == TAG_ARBITRARY;
    forall l | 0 <= l < |v.subtables| ensures v.subtables[l].tag == TagOf(v.h, r.mask) {
      var s := v.subtables[l];
      assert s in multiset(v.subtables) && SubExact(v.h, segments, fields, s);
      OnlyMask(v.h, segments, fields, multiset(v.subtables), s, r);
    }
    SkipsAll(v, f, 0);
  }

  lemma OnlyMask(h: Hasher, segments: seq<nat>, fields: seq<Field>, subs: multiset<Subtable>, s: Subtable, r: Rule)
    requires TablesOk(h, segments, fields, subs, {r}) && s in subs
    ensures s.mask == r.mask
  {
    hide Indexed, MaxExact, StagesUseful, TagOf, ExactMetadata;
    assert SubExact(h, segments, fields, s);
    assert ListOk(s.rules[0], s.mask);
    var x := s.rules[0][0];
    assert x in RuleSet(s.rules);
    RulesOf(h, segments, fields, subs, {r}, s, x);
  }
}
