/**
 The header of `lib/classifier.h` promises that flows a lookup's mask cannot tell apart get
 the same rule.  A classifier with one rule breaks the promise.
 */
module MetadataExample {
  import opened Bits
  import opened Flow
  import opened Lookup
  import opened Classify
  import opened Upkeep
  import opened PrefixMasks
  import opened State
  import opened Megaflows
  import opened ClassifierModel
  import opened SubtableOps

  /** Ones in the metadata, and zeros elsewhere. */
  function OnMetadata(): FlowBits {
    Range(Ones(FLOW_BITS, FLOW_BITS), METADATA_U32, METADATA_U32 + 2)
  }

  /** A rule that fixes the metadata to all ones. */
  function OneRule(): Rule {
    Rule(0, OnMetadata(), OnMetadata(), 1)
  }

  /** A hash of masks whose tag is {2, 4}. */
  const HASHER: Hasher := Hasher((a, b) => 0, (a, b) => 0, m => 98)

  lemma RuleFacts()
    ensures Metadata(Zeros(FLOW_BITS)) != Metadata(OneRule().flow) && ExactMetadata(OneRule().mask)
    ensures Matches(OneRule(), OnMetadata()) && TagOf(HASHER, OneRule().mask) == {2, 4} && !Intersects(TAG_ARBITRARY, {2, 4})
  {
    hide Range;
    var m := OnMetadata();
    assert forall i :: 0 <= i < 64 ==> Metadata(m)[i] == m[32 * METADATA_U32 + i];
    assert !Metadata(Zeros(FLOW_BITS))[0];
    assert TAG_ARBITRARY * {2, 4} == {};
  }

  /**
   In any classifier that holds just this rule, the lookup of a flow with other metadata
   finds nothing and leaves no trace of the metadata in its mask, so that a flow that gets
   the rule is in the same region.
   */
  lemma MetadataMatters(c: Classifier)
    requires c.Valid() && c.all == {OneRule()} && c.h == HASHER
    ensures ViewOk(c.Snapshot()) && InRegion(c.Snapshot(), Zeros(FLOW_BITS), OnMetadata())
    ensures LookupRule(c.Snapshot(), Zeros(FLOW_BITS), Zeros(FLOW_BITS)).rule == None
    ensures LookupRule(c.Snapshot(), OnMetadata(), Zeros(FLOW_BITS)).rule == Some(OneRule())
  {
    hide TablesOk, Sorted, PartsOk, BagsOk, SegmentsOk, ViewOk, InView, Range, Tags, OnMetadata, OneRule, TagOf, Intersects, Metadata, Matches, LookupRule;
    var v, f, g := c.Snapshot(), Zeros(FLOW_BITS), OnMetadata();
    c.SnapshotOk();
    RuleFacts();
    OneRuleSkips(c.segments, c.bank.fields, c.partitions, v, OneRule(), f);
    LookupReturnsBest(v, g, Zeros(FLOW_BITS));
    assert InView(v, OneRule());
    assert AgreeOn(Zeros(FLOW_BITS), f, g);
  }

  /** Such a classifier is one call away from an empty one. */
  method BuildExample() returns (c: Classifier)
    ensures fresh(c) && c.Valid() && c.all == {OneRule()} && c.h == HASHER
  {
    hide Consistent, SegmentsOk, OneRule, OnMetadata;
    c := new Classifier(HASHER, [], []);
    var was := c.Replace(OneRule());
    assert was == None ==> {} - {} + {OneRule()} == {OneRule()};
  }
}
