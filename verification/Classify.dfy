/**
 `classifier_lookup` over all subtables, as a function of the classifier's contents:
 it returns a best matching rule, its wildcard mask is safe, and with one trie the
 masks of different lookups never overlap without being equal.
 */
module Classify {
  import opened Bits
  import opened Flow
  import opened Lookup
  import T = TrieModel

  const TAG_BITS: set<nat> := set i: nat | i < 32
  const TAG_ARBITRARY: set<nat> := {0, 1}

  /** `tag_intersects`: two tags have at least two bits in common. */
  predicate Intersects(a: set<nat>, b: set<nat>) {
    |a * b| >= 2
  }

  /** What lookup reads: subtables in priority order, tags by metadata value, tries. */
  datatype View = View(h: Hasher, subtables: seq<Subtable>, partitions: map<Bits, set<nat>>, tries: seq<Trie>)

  ghost predicate TagsOk(v: View, s: Subtable) {
    && |s.tag| >= 2
    && (!ExactMetadata(s.mask) ==> s.tag == TAG_BITS)
    && (ExactMetadata(s.mask) ==> forall r :: Has(s, r) ==> Metadata(r.flow) in v.partitions && s.tag <= v.partitions[Metadata(r.flow)])
  }

  ghost predicate SubtableOk(v: View, s: Subtable) {
    && ListsOk(s) && IndicesOk(v.h, s) && TriesCover(v.tries, s) && TagsOk(v, s)
    && forall r :: Has(s, r) ==> r.priority <= s.maxPriority
  }

  ghost predicate ViewOk(v: View) {
    && (forall k :: 0 <= k < |v.subtables| ==> SubtableOk(v, v.subtables[k]))
    && (forall k, l :: 0 <= k < l < |v.subtables| ==> v.subtables[k].maxPriority >= v.subtables[l].maxPriority)
    && PartitionsOk(v)
  }

  function Tags(v: View, f: FlowBits): set<nat> {
    if Metadata(f) in v.partitions then v.partitions[Metadata(f)] else TAG_ARBITRARY
  }

  function Better(best: Option<Rule>, r: Option<Rule>): Option<Rule> {
    if r.Some? && (best.None? || r.value.priority > best.value.priority) then r else best
  }

  /** `classifier_lookup` with a wildcard argument, from subtable 'k' on. */
  function LookupFrom(v: View, f: FlowBits, k: nat, best: Option<Rule>, wc: FlowBits): (r: Found)
    requires ViewOk(v)
    decreases |v.subtables| - k
  {
    if k >= |v.subtables| then Found(best, wc) else
      var s := v.subtables[k];
      if best.Some? && s.maxPriority <= best.value.priority then Found(best, wc)
      else if !Intersects(Tags(v, f), s.tag) then LookupFrom(v, f, k + 1, best, wc)
      else
        assert SubtableOk(v, s);
        var r := FindFrom(v.h, s, v.tries, f, 0, 0, false, wc);
        LookupFrom(v, f, k + 1, Better(best, r.rule), r.wc)
  }

  /** `classifier_lookup` without a wildcard argument. */
  function LookupPlain(v: View, f: FlowBits, k: nat, best: Option<Rule>): (r: Option<Rule>)
    requires ViewOk(v)
    decreases |v.subtables| - k
  {
    if k >= |v.subtables| then best else
      var s := v.subtables[k];
      if best.Some? && s.maxPriority <= best.value.priority then best
      else if !Intersects(Tags(v, f), s.tag) then LookupPlain(v, f, k + 1, best)
      else
        assert SubtableOk(v, s);
        LookupPlain(v, f, k + 1, Better(best, FindMatch(v.h, s, f, StageHash(v.h, f, s.mask, FLOW_U32S), 0)))
  }

  function LookupRule(v: View, f: FlowBits, wc: FlowBits): Found
    requires ViewOk(v)
  {
    LookupFrom(v, f, 0, None, wc)
  }

  // ----- refinement: lookup returns a best rule

  ghost predicate InView(v: View, r: Rule) {
    exists k :: 0 <= k < |v.subtables| && Has(v.subtables[k], r)
  }

  /** 'r' is a matching rule of maximal priority, or there is no matching rule at all. */
  ghost predicate IsBest(v: View, f: FlowBits, r: Option<Rule>) {
    match r
    case None => forall x :: InView(v, x) ==> !Matches(x, f)
    case Some(b) => InView(v, b) && Matches(b, f) && forall x :: InView(v, x) && Matches(x, f) ==> x.priority <= b.priority
  }

  ghost predicate PartitionsOk(v: View) {
    forall m :: m in v.partitions ==> v.partitions[m] <= TAG_BITS && |v.partitions[m]| >= 2
  }

  /** A subtable with a rule for the flow has a tag that meets the partition's tags. */
  lemma TagMeets(v: View, s: Subtable, f: FlowBits, r: Rule)
    requires SubtableOk(v, s) && PartitionsOk(v) && Has(s, r) && Matches(r, f)
    ensures Intersects(Tags(v, f), s.tag)
  {
    hide IndicesOk, TriesCover, Metadata, Has, Matches;
    if ExactMetadata(s.mask) {
      HasMask(s, r);
      SameMetadata(r, f);
      assert Tags(v, f) * s.tag == s.tag;
    } else {
      assert |TAG_ARBITRARY| == 2;
      assert Tags(v, f) * s.tag == Tags(v, f);
    }
  }

  lemma SameMetadata(r: Rule, f: FlowBits)
    requires ExactMetadata(r.mask) && Matches(r, f)
    ensures Metadata(r.flow) == Metadata(f)
  {
    forall i | 0 <= i < 64 ensures Metadata(r.flow)[i] == Metadata(f)[i] {
      assert Metadata(r.mask)[i] == r.mask[32 * METADATA_U32 + i];
    }
  }

  /** What 'best' stands for when the subtables before 'k' have been searched. */
  ghost predicate BestSoFar(v: View, f: FlowBits, k: nat, best: Option<Rule>) {
    && (best.Some? ==> InView(v, best.value) && Matches(best.value, f))
    && (forall l, x :: 0 <= l < k && l < |v.subtables| && Has(v.subtables[l], x) && Matches(x, f) ==>
          best.Some? && x.priority <= best.value.priority)
  }

  /** The plain search finds a best rule in a subtable, or there is none for this flow. */
  lemma SearchStep(v: View, f: FlowBits, k: nat, best: Option<Rule>)
    requires ViewOk(v) && k < |v.subtables| && BestSoFar(v, f, k, best)
    ensures SubtableOk(v, v.subtables[k])
    ensures BestSoFar(v, f, k + 1, Better(best, FirstMatch(v.subtables[k], f, 0)))
    ensures !Intersects(Tags(v, f), v.subtables[k].tag) ==> BestSoFar(v, f, k + 1, best)
  {
    hide ListsOk, IndicesOk, TriesCover, Matches, FirstMatch, Tags, Intersects, TagsOk, PartitionsOk, Has;
    var s := v.subtables[k];
    assert SubtableOk(v, s);
    FirstMatchNone(s, f);
    forall x | Has(s, x) && Matches(x, f)
      ensures Intersects(Tags(v, f), s.tag) && FirstMatch(s, f, 0).Some? && x.priority <= FirstMatch(s, f, 0).value.priority
    {
      TagMeets(v, s, f, x);
      FirstMatchHead(s, f, x);
    }
  }

  /** Nothing past a subtable that cannot beat 'best' can. */
  lemma EarlyStop(v: View, f: FlowBits, k: nat, best: Option<Rule>)
    requires ViewOk(v) && BestSoFar(v, f, k, best)
    requires k >= |v.subtables| || (best.Some? && v.subtables[k].maxPriority <= best.value.priority)
    ensures IsBest(v, f, best)
  {
    hide ListsOk, IndicesOk, TriesCover, Matches, TagsOk, PartitionsOk, Has;
    forall x | InView(v, x) && Matches(x, f) ensures best.Some? && x.priority <= best.value.priority {
      var l :| 0 <= l < |v.subtables| && Has(v.subtables[l], x);
      assert SubtableOk(v, v.subtables[l]);
    }
  }

  lemma {:induction false} PlainIsBest(v: View, f: FlowBits, k: nat, best: Option<Rule>)
    requires ViewOk(v) && BestSoFar(v, f, k, best)
    ensures IsBest(v, f, LookupPlain(v, f, k, best))
    decreases |v.subtables| - k
  {
    hide ListsOk, IndicesOk, TriesCover, Matches, FirstMatch, FindMatch, Tags, Intersects, TagsOk, ViewOk, BestSoFar, IsBest;
    if k >= |v.subtables| || (best.Some? && v.subtables[k].maxPriority <= best.value.priority) {
      EarlyStop(v, f, k, best);
    } else {
      SearchStep(v, f, k, best);
      FindMatchIsFirst(v.h, v.subtables[k], f, 0);
      if Intersects(Tags(v, f), v.subtables[k].tag) {
        PlainIsBest(v, f, k + 1, Better(best, FirstMatch(v.subtables[k], f, 0)));
      } else {
        PlainIsBest(v, f, k + 1, best);
      }
    }
  }

  lemma {:induction false} SameAsPlain(v: View, f: FlowBits, k: nat, best: Option<Rule>, wc: FlowBits)
    requires ViewOk(v)
    ensures LookupFrom(v, f, k, best, wc).rule == LookupPlain(v, f, k, best)
    ensures Within(wc, LookupFrom(v, f, k, best, wc).wc)
    decreases |v.subtables| - k
  {
    hide ListsOk, IndicesOk, TriesCover, FirstMatch, FindMatch, FindFrom, Tags, Intersects, TagsOk, SoundFor, Within, NoneMatches, PartitionsOk;
    SelfWithin(wc);
    if k < |v.subtables| {
      var s := v.subtables[k];
      assert SubtableOk(v, s);
      SameAsPlain(v, f, k + 1, best, wc);
      FindIsSound(v.h, s, v.tries, f, 0, 0, false, wc);
      FindMatchIsFirst(v.h, s, f, 0);
      var r := FindFrom(v.h, s, v.tries, f, 0, 0, false, wc);
      SameAsPlain(v, f, k + 1, Better(best, r.rule), r.wc);
      WithinTrans(wc, r.wc, LookupFrom(v, f, k + 1, Better(best, r.rule), r.wc).wc);
    }
  }

  lemma SelfWithin(wc: FlowBits)
    ensures Within(wc, wc)
  {
  }

  /**
   Lookup refinement: with or without a wildcard argument, `classifier_lookup` returns
   a matching rule of maximal priority, or none exactly when no rule matches.
   */
  lemma LookupReturnsBest(v: View, f: FlowBits, wc: FlowBits)
    requires ViewOk(v)
    ensures IsBest(v, f, LookupRule(v, f, wc).rule)
    ensures LookupPlain(v, f, 0, None) == LookupRule(v, f, wc).rule
  {
    hide ViewOk, LookupFrom, LookupPlain, IsBest;
    PlainIsBest(v, f, 0, None);
    SameAsPlain(v, f, 0, None, wc);
  }

  // ----- un-wildcarding

  lemma {:induction false} PlainSame(v: View, f: FlowBits, g: FlowBits, k: nat, best: Option<Rule>, wc: FlowBits)
    requires ViewOk(v) && Tags(v, f) == Tags(v, g) && AgreeOn(LookupFrom(v, f, k, best, wc).wc, f, g)
    ensures LookupPlain(v, g, k, best) == LookupPlain(v, f, k, best)
    decreases |v.subtables| - k
  {
    hide ListsOk, IndicesOk, TriesCover, FirstMatch, FindMatch, FindFrom, Intersects, TagsOk, Within, NoneMatches, PartitionsOk, AgreeOn, Tags;
    if k < |v.subtables| && !(best.Some? && v.subtables[k].maxPriority <= best.value.priority) {
      var s := v.subtables[k];
      assert SubtableOk(v, s);
      FindIsSound(v.h, s, v.tries, f, 0, 0, false, wc);
      FindMatchIsFirst(v.h, s, f, 0);
      FindMatchIsFirst(v.h, s, g, 0);
      if !Intersects(Tags(v, f), s.tag) {
        PlainSame(v, f, g, k + 1, best, wc);
      } else {
        var r := FindFrom(v.h, s, v.tries, f, 0, 0, false, wc);
        var best' := Better(best, r.rule);
        SameAsPlain(v, f, k + 1, best', r.wc);
        AgreeLess(r.wc, LookupFrom(v, f, k + 1, best', r.wc).wc, f, g);
        PlainSame(v, f, g, k + 1, best', r.wc);
      }
    }
  }

  /**
   Wildcard soundness: if looking up 'f' leaves the mask M, then every flow that M cannot
   tell from 'f', and whose metadata selects the same tags, gets the same rule, for any
   number of tries, any segments and any hash.
   */
  lemma WildcardSound(v: View, f: FlowBits, g: FlowBits, wc: FlowBits, wc': FlowBits)
    requires ViewOk(v) && Tags(v, f) == Tags(v, g) && AgreeOn(LookupRule(v, f, wc).wc, f, g)
    ensures LookupRule(v, g, wc').rule == LookupRule(v, f, wc).rule
    ensures Within(wc, LookupRule(v, f, wc).wc)
  {
    hide ViewOk, LookupFrom, LookupPlain, AgreeOn, Tags, Within;
    PlainSame(v, f, g, 0, None, wc);
    SameAsPlain(v, f, 0, None, wc);
    SameAsPlain(v, g, 0, None, wc');
  }

  /** At most one trie, its field inside one stage of every subtable and present in both flows or neither. */
  ghost predicate OneTrieEverywhere(v: View, f: FlowBits, g: FlowBits) {
    forall k :: 0 <= k < |v.subtables| ==> OneTrie(v.subtables[k], v.tries, f, g)
  }

  lemma {:induction false} MaskSame(v: View, f: FlowBits, g: FlowBits, k: nat, best: Option<Rule>, wc: FlowBits)
    requires ViewOk(v) && Tags(v, f) == Tags(v, g) && OneTrieEverywhere(v, f, g)
    requires AgreeOn(LookupFrom(v, f, k, best, wc).wc, f, g)
    ensures LookupFrom(v, g, k, best, wc) == LookupFrom(v, f, k, best, wc)
    decreases |v.subtables| - k
  {
    hide ListsOk, IndicesOk, TriesCover, FirstMatch, FindMatch, FindFrom, Intersects, TagsOk, Within, NoneMatches, PartitionsOk, AgreeOn, Tags, OneTrie;
    if k < |v.subtables| && !(best.Some? && v.subtables[k].maxPriority <= best.value.priority) {
      var s := v.subtables[k];
      assert SubtableOk(v, s);
      if !Intersects(Tags(v, f), s.tag) {
        MaskSame(v, f, g, k + 1, best, wc);
      } else {
        var r := FindFrom(v.h, s, v.tries, f, 0, 0, false, wc);
        var best' := Better(best, r.rule);
        SameAsPlain(v, f, k + 1, best', r.wc);
        AgreeLess(r.wc, LookupFrom(v, f, k + 1, best', r.wc).wc, f, g);
        FindIsSame(v.h, s, v.tries, f, g, 0, 0, false, wc);
        MaskSame(v, f, g, k + 1, best', r.wc);
      }
    }
  }

  /** 'g' lies in the megaflow that looking up 'f' produces. */
  ghost predicate InRegion(v: View, f: FlowBits, g: FlowBits)
    requires ViewOk(v)
  {
    AgreeOn(LookupRule(v, f, Zeros(FLOW_BITS)).wc, f, g)
  }

  /**
   Megaflow non-overlap: with one trie, and the tags and the trie field's presence fixed,
   a flow in both regions of two lookups makes the regions equal, and so the rules and
   the masks.
   */
  lemma RegionsDisjointOrEqual(v: View, a: FlowBits, b: FlowBits, g: FlowBits, x: FlowBits)
    requires ViewOk(v) && Tags(v, a) == Tags(v, b) == Tags(v, g)
    requires OneTrieEverywhere(v, a, g) && OneTrieEverywhere(v, b, g)
    requires InRegion(v, a, g) && InRegion(v, b, g)
    ensures LookupRule(v, a, Zeros(FLOW_BITS)) == LookupRule(v, b, Zeros(FLOW_BITS))
    ensures InRegion(v, a, x) <==> InRegion(v, b, x)
  {
    hide ViewOk, LookupFrom, AgreeOn, Tags, OneTrieEverywhere;
    MaskSame(v, a, g, 0, None, Zeros(FLOW_BITS));
    MaskSame(v, b, g, 0, None, Zeros(FLOW_BITS));
    var m := LookupRule(v, g, Zeros(FLOW_BITS)).wc;
    SameRegion(m, a, b, g, x);
  }

  lemma SameRegion(m: FlowBits, a: FlowBits, b: FlowBits, g: FlowBits, x: FlowBits)
    requires AgreeOn(m, a, g) && AgreeOn(m, b, g)
    ensures AgreeOn(m, a, x) <==> AgreeOn(m, b, x)
  {
  }
}
