/** `classifier_rule_overlaps`: when two rules of one priority could match one packet. */
module Overlap {
  import opened Bits
  import opened Flow
  import opened Lookup
  import opened Tables
  import opened Upkeep
  import opened State
  import opened SubtableList

  /** Some packet matches both rules. */
  ghost predicate Meet(a: Rule, b: Rule) {
    exists f: FlowBits :: Matches(a, f) && Matches(b, f)
  }

  /** Two rules meet exactly if they agree wherever both look. */
  lemma MeetIsAgree(a: Rule, b: Rule)
    ensures Meet(a, b) <==> AgreeOn(And(a.mask, b.mask), a.flow, b.flow)
  {
    hide And, Or;
    var both := And(a.mask, b.mask);
    if Meet(a, b) {
      var f: FlowBits :| Matches(a, f) && Matches(b, f);
      forall i | 0 <= i < FLOW_BITS && both[i] ensures a.flow[i] == b.flow[i] {
        assert a.mask[i] && b.mask[i];
      }
    }
    if AgreeOn(both, a.flow, b.flow) {
      var f: FlowBits := Or(a.flow, b.flow);
      forall i | 0 <= i < FLOW_BITS ensures (a.mask[i] ==> a.flow[i] == f[i]) && (b.mask[i] ==> b.flow[i] == f[i]) {
        assert both[i] == (a.mask[i] && b.mask[i]);
      }
      assert Matches(a, f) && Matches(b, f);
    }
  }

  /** A rule of the same priority that could match a packet of the target's. */
  ghost predicate Clashes(x: Rule, target: Rule) {
    x.priority == target.priority && Meet(x, target)
  }

  lemma ClashTest(x: Rule, target: Rule)
    ensures Clashes(x, target) <==> x.priority == target.priority && AgreeOn(And(target.mask, x.mask), target.flow, x.flow)
  {
    hide And, AgreeOn, Meet;
    MeetIsAgree(target, x);
    MeetSwap(target, x);
  }

  lemma MeetSwap(a: Rule, b: Rule)
    ensures Meet(a, b) <==> Meet(b, a)
  {
    hide Matches;
  }

  lemma NoneBelow(l: seq<Rule>, i: nat, target: Rule)
    requires Descending(l) && i < |l| && l[i].priority < target.priority
    ensures forall a :: i <= a < |l| ==> !Clashes(l[a], target)
  {
    hide Meet;
  }

  /** The scan of one list, which ends at the first lower priority. */
  method ListOverlaps(l: seq<Rule>, mask: FlowBits, target: Rule) returns (found: bool)
    requires ListOk(l, mask)
    ensures found <==> exists x :: x in l && Clashes(x, target)
  {
    hide And, AgreeOn, Clashes, Descending;
    var both: FlowBits := And(target.mask, mask);
    for i := 0 to |l|
      invariant forall a :: 0 <= a < i ==> !Clashes(l[a], target)
    {
      ClashTest(l[i], target);
      assert l[i] in l;
      if l[i].priority < target.priority {
        NoneBelow(l, i, target);
        return false;
      }
      if l[i].priority == target.priority && AgreeOn(both, target.flow, l[i].flow) {
        return true;
      }
    }
    found := false;
  }

  /** The scan of one subtable. */
  method SubtableOverlaps(s: Subtable, target: Rule) returns (found: bool)
    requires ListsOk(s)
    ensures found <==> exists x :: x in RuleSet(s.rules) && Clashes(x, target)
  {
    hide Clashes, Descending;
    for k := 0 to |s.rules|
      invariant forall l, x :: 0 <= l < k && x in s.rules[l] ==> !Clashes(x, target)
    {
      assert ListOk(s.rules[k], s.mask);
      var here := ListOverlaps(s.rules[k], s.mask, target);
      if here {
        return true;
      }
    }
    found := false;
  }

  lemma NoneAbove(h: Hasher, segments: seq<nat>, fields: seq<Field>, subs: seq<Subtable>, all: set<Rule>, k: nat, target: Rule)
    requires TablesOk(h, segments, fields, multiset(subs), all) && Sorted(subs) && k <= |subs|
    requires k < |subs| ==> target.priority > subs[k].maxPriority
    requires forall l, x :: 0 <= l < k && x in RuleSet(subs[l].rules) ==> !Clashes(x, target)
    ensures forall x :: x in all ==> !Clashes(x, target)
  {
    hide ListsOk, Indexed, TagOf, StagesUseful, RuleSet, Meet, AtPriority;
    forall x | x in all ensures !Clashes(x, target) {
      var s :| s in multiset(subs) && x in RuleSet(s.rules);
      var l :| 0 <= l < |subs| && subs[l] == s;
      assert SubExact(h, segments, fields, s);
    }
  }

  /** `classifier_rule_overlaps`. */
  method Overlaps(h: Hasher, ghost segments: seq<nat>, ghost fields: seq<Field>, subs: seq<Subtable>, ghost all: set<Rule>, target: Rule)
    returns (found: bool)
    requires TablesOk(h, segments, fields, multiset(subs), all) && Sorted(subs)
    ensures found <==> exists x :: x in all && Clashes(x, target)
  {
    hide Sorted, SubCore, RuleSet, Clashes, TablesOk;
    for k := 0 to |subs|
      invariant forall l, x :: 0 <= l < k && x in RuleSet(subs[l].rules) ==> !Clashes(x, target)
    {
      OneOf(h, segments, fields, subs, all, k);
      if target.priority > subs[k].maxPriority {
        NoneAbove(h, segments, fields, subs, all, k, target);
        return false;
      }
      ListsOf(h, segments, fields, subs[k]);
      var here := SubtableOverlaps(subs[k], target);
      if here {
        return true;
      }
    }
    NoneAbove(h, segments, fields, subs, all, |subs|, target);
    found := false;
  }

  lemma ListsOf(h: Hasher, segments: seq<nat>, fields: seq<Field>, s: Subtable)
    requires SubExact(h, segments, fields, s)
    ensures ListsOk(s)
  {
  }
}
