/** What inserting and removing a rule does to the classifier's list of subtables. */
module SubtableList {
  import opened Bits
  import opened Flow
  import opened Lookup
  import opened Tables
  import opened Upkeep
  import opened PrefixMasks
  import opened State
  import opened SubtableOps

  /** `find_subtable`. */
  method FindSubtable(subs: seq<Subtable>, mask: FlowBits) returns (k: Option<nat>)
    ensures match k
            case None => forall l :: 0 <= l < |subs| ==> subs[l].mask != mask
            case Some(l) => l < |subs| && subs[l].mask == mask
  {
    for l := 0 to |subs|
      invariant forall m :: 0 <= m < l ==> subs[m].mask != mask
    {
      if subs[l].mask == mask {
        return Some(l);
      }
    }
    k := None;
  }

  /** Nothing else is out of order when the subtable at 'k' has changed its maximum. */
  lemma OnlyOneChanged(subs: seq<Subtable>, k: nat, s: Subtable)
    requires Sorted(subs) && k < |subs|
    ensures SortedBut(subs[k := s], k)
    ensures s.maxPriority >= subs[k].maxPriority ==> forall b :: k < b < |subs| ==> s.maxPriority >= subs[b].maxPriority
    ensures s.maxPriority <= subs[k].maxPriority ==> forall a :: 0 <= a < k ==> subs[a].maxPriority >= s.maxPriority
    ensures s.maxPriority == subs[k].maxPriority ==> Sorted(subs[k := s])
  {
  }

  /** The second half of `update_subtables_after_insertion`, which moves a subtable only if it rose. */
  method Raise(subs: seq<Subtable>, k: nat, s: Subtable) returns (subs': seq<Subtable>)
    requires Sorted(subs) && k < |subs| && s.maxPriority >= subs[k].maxPriority
    ensures Sorted(subs') && multiset(subs') == multiset(subs) - multiset{subs[k]} + multiset{s}
  {
    hide Sorted, SortedBut, Moved;
    OnlyOneChanged(subs, k, s);
    subs' := subs[k := s];
    if s.maxPriority > subs[k].maxPriority {
      var j: nat;
      MovedSameAll(subs', k);
      subs', j := MoveEarlier(subs', k);
    }
  }

  lemma MovedSameAll(subs: seq<Subtable>, k: nat)
    requires k < |subs|
    ensures forall j :: 0 <= j < |subs| ==> multiset(Moved(subs, k, j)) == multiset(subs)
  {
    hide Moved;
    forall j | 0 <= j < |subs| ensures multiset(Moved(subs, k, j)) == multiset(subs) { MovedSame(subs, k, j); }
  }

  lemma NewIsLast(subs: seq<Subtable>, s: Subtable)
    requires Sorted(subs) && s.maxPriority == 0
    ensures Sorted(subs + [s])
  {
  }

  /** The rules after an exchange of subtables. */
  lemma NewRules(h: Hasher, segments: seq<nat>, fields: seq<Field>, subs: multiset<Subtable>, all: set<Rule>, s: Subtable, r: Rule, was: Option<Rule>)
    requires TablesOk(h, segments, fields, subs, all) && s in subs && r.mask == s.mask && IsTwin(RuleSet(s.rules), r, was)
    ensures IsTwin(all, r, was)
    ensures all - RuleSet(s.rules) + (RuleSet(s.rules) - Gone(was) + {r}) == all - Gone(was) + {r}
  {
    hide SubExact, RuleSet;
    forall x ensures x in RuleSet(s.rules) <==> x in all && x.mask == s.mask { RulesOf(h, segments, fields, subs, all, s, x); }
  }

  lemma NoTwin(h: Hasher, segments: seq<nat>, fields: seq<Field>, subs: seq<Subtable>, all: set<Rule>, r: Rule)
    requires TablesOk(h, segments, fields, multiset(subs), all) && forall l :: 0 <= l < |subs| ==> subs[l].mask != r.mask
    ensures IsTwin(all, r, None) && forall t :: t in multiset(subs) ==> t.mask != r.mask
  {
    hide SubExact, RuleSet;
    forall x | x in all ensures x.mask != r.mask {
      var t :| t in multiset(subs) && x in RuleSet(t.rules);
      RulesOf(h, segments, fields, multiset(subs), all, t, x);
    }
  }

  /** The subtable half of `classifier_replace`. */
  method InsertInto(h: Hasher, segments: seq<nat>, fields: seq<Field>, subs: seq<Subtable>, ghost all: set<Rule>, r: Rule)
    returns (subs': seq<Subtable>, was: Option<Rule>, plens: seq<nat>)
    requires SegmentsOk(segments) && TablesOk(h, segments, fields, multiset(subs), all) && Sorted(subs) && r !in all
    ensures TablesOk(h, segments, fields, multiset(subs'), all - Gone(was) + {r}) && Sorted(subs')
    ensures IsTwin(all, r, was)
    ensures |plens| == |fields| && forall j :: 0 <= j < |fields| ==> plens[j] == PrefixLen(r.mask, fields[j])
  {
    hide TablesOk, SubCore, Sorted, IsTwin, RuleSet, PrefixLen, SegmentsOk;
    var at := FindSubtable(subs, r.mask);
    if at == None {
      var s := NewSubtable(h, segments, fields, r.mask);
      NewCore(h, segments, fields, s);
      NoTwin(h, segments, fields, subs, all, r);
      NewIsLast(subs, s);
      var s', twin := InsertRule(h, segments, fields, s, r);
      was := twin;
      TwinOfNone(r, was);
      TablesAdd(h, segments, fields, multiset(subs), all, s');
      assert multiset(subs + [s]) - multiset{s} == multiset(subs);
      subs' := Raise(subs + [s], |subs|, s');
      plens := s'.plens;
      PlensOf(h, segments, fields, s');
      assert all + RuleSet(s'.rules) == all - Gone(was) + {r};
    } else {
      var k := at.value;
      var s := subs[k];
      OneOf(h, segments, fields, subs, all, k);
      var s', twin := InsertRule(h, segments, fields, s, r);
      was := twin;
      NewRules(h, segments, fields, multiset(subs), all, s, r, was);
      TablesExchange(h, segments, fields, multiset(subs), all, s, s');
      subs' := Raise(subs, k, s');
      plens := s'.plens;
      PlensOf(h, segments, fields, s');
    }
  }

  lemma NewCore(h: Hasher, segments: seq<nat>, fields: seq<Field>, s: Subtable)
    requires SubCore(h, segments, fields, s) && s.rules == []
    ensures s.maxPriority == 0 && RuleSet(s.rules) == {}
  {
    hide ListsOk, Indexed, TagOf, StagesUseful, PrefixLen;
    assert RuleSet(s.rules) == {};
  }

  lemma TwinOfNone(r: Rule, was: Option<Rule>)
    requires IsTwin({}, r, was)
    ensures was == None
  {
  }

  lemma PlensOf(h: Hasher, segments: seq<nat>, fields: seq<Field>, s: Subtable)
    requires SubCore(h, segments, fields, s)
    ensures |s.plens| == |fields| && forall j :: 0 <= j < |fields| ==> s.plens[j] == PrefixLen(s.mask, fields[j])
  {
  }

  lemma OneOf(h: Hasher, segments: seq<nat>, fields: seq<Field>, subs: seq<Subtable>, all: set<Rule>, k: nat)
    requires TablesOk(h, segments, fields, multiset(subs), all) && k < |subs|
    ensures subs[k] in multiset(subs) && SubExact(h, segments, fields, subs[k])
    ensures forall r :: r in RuleSet(subs[k].rules) <==> r in all && r.mask == subs[k].mask
  {
    hide SubExact, RuleSet;
    assert subs[k] in multiset(subs);
    forall r ensures r in RuleSet(subs[k].rules) <==> r in all && r.mask == subs[k].mask {
      RulesOf(h, segments, fields, multiset(subs), all, subs[k], r);
    }
  }

  /** The second half of `update_subtables_after_removal`, which moves a subtable only if it sank. */
  method Lower(subs: seq<Subtable>, k: nat, s: Subtable) returns (subs': seq<Subtable>)
    requires Sorted(subs) && k < |subs| && s.maxPriority <= subs[k].maxPriority
    ensures Sorted(subs') && multiset(subs') == multiset(subs) - multiset{subs[k]} + multiset{s}
  {
    hide Sorted, SortedBut, Moved;
    OnlyOneChanged(subs, k, s);
    subs' := subs[k := s];
    if s.maxPriority < subs[k].maxPriority {
      var j: nat;
      MovedSameAll(subs', k);
      subs', j := MoveLater(subs', k);
    }
  }

  /** `destroy_subtable`. */
  lemma WithoutOne(subs: seq<Subtable>, k: nat)
    requires k < |subs|
    ensures multiset(subs[..k] + subs[k + 1..]) == multiset(subs) - multiset{subs[k]}
    ensures Sorted(subs) ==> Sorted(subs[..k] + subs[k + 1..])
  {
    hide Sorted;
    assert subs == subs[..k] + [subs[k]] + subs[k + 1..];
    if Sorted(subs) { SortedWithout(subs, k); }
  }

  lemma SortedWithout(subs: seq<Subtable>, k: nat)
    requires k < |subs| && Sorted(subs)
    ensures Sorted(subs[..k] + subs[k + 1..])
  {
    var r := subs[..k] + subs[k + 1..];
    forall a, b | 0 <= a < b < |r| ensures r[a].maxPriority >= r[b].maxPriority {
      assert r[a] == subs[if a < k then a else a + 1] && r[b] == subs[if b < k then b else b + 1];
    }
  }

  lemma EmptyRules(h: Hasher, segments: seq<nat>, fields: seq<Field>, s: Subtable)
    requires SubCore(h, segments, fields, s)
    ensures s.rules == [] <==> RuleSet(s.rules) == {}
  {
    hide Indexed, MaxExact, TagOf, StagesUseful, PrefixLen, Descending;
    if s.rules != [] {
      assert ListOk(s.rules[0], s.mask) && s.rules[0][0] in s.rules[0];
      assert s.rules[0][0] in RuleSet(s.rules);
    }
  }

  /** The subtable half of `classifier_remove`. */
  method RemoveFrom(h: Hasher, ghost segments: seq<nat>, fields: seq<Field>, subs: seq<Subtable>, ghost all: set<Rule>, r: Rule)
    returns (subs': seq<Subtable>, plens: seq<nat>)
    requires TablesOk(h, segments, fields, multiset(subs), all) && Sorted(subs) && r in all
    ensures TablesOk(h, segments, fields, multiset(subs'), all - {r}) && Sorted(subs')
    ensures |plens| == |fields| && forall j :: 0 <= j < |fields| ==> plens[j] == PrefixLen(r.mask, fields[j])
  {
    hide TablesOk, SubCore, Sorted, RuleSet, PrefixLen;
    var at := FindSubtable(subs, r.mask);
    HasSubtable(h, segments, fields, subs, all, r);
    var k := at.value;
    var s := subs[k];
    OneOf(h, segments, fields, subs, all, k);
    plens := s.plens;
    PlensOf(h, segments, fields, s);
    var s' := RemoveRule(h, segments, fields, s, r);
    EmptyRules(h, segments, fields, s');
    if s'.rules == [] {
      assert all - RuleSet(s.rules) == all - {r} by { assert RuleSet(s.rules) == {r}; }
      TablesDrop(h, segments, fields, multiset(subs), all, s);
      WithoutOne(subs, k);
      subs' := subs[..k] + subs[k + 1..];
    } else {
      assert all - RuleSet(s.rules) + RuleSet(s'.rules) == all - {r};
      TablesExchange(h, segments, fields, multiset(subs), all, s, s');
      subs' := Lower(subs, k, s');
    }
  }

  lemma HasSubtable(h: Hasher, segments: seq<nat>, fields: seq<Field>, subs: seq<Subtable>, all: set<Rule>, r: Rule)
    requires TablesOk(h, segments, fields, multiset(subs), all) && r in all
    ensures exists k :: 0 <= k < |subs| && subs[k].mask == r.mask
  {
    hide SubExact, RuleSet;
    var t :| t in multiset(subs) && r in RuleSet(t.rules);
    RulesOf(h, segments, fields, multiset(subs), all, t, r);
  }
}
