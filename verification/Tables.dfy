/**
 What `insert_rule` and `classifier_remove` do to one subtable: its lists of rules,
 its staged indices, and its maximum priority.
 */
module Tables {
  import opened Bits
  import opened Flow
  import opened Lookup

  function RuleSet(rules: seq<seq<Rule>>): set<Rule> {
    set k, r | 0 <= k < |rules| && r in rules[k] :: r
  }

  lemma HasIsIn(s: Subtable, r: Rule)
    ensures Has(s, r) <==> r in RuleSet(s.rules)
  {
  }

  // ----- lists of rules that differ only in priority

  /** The list with 'r' in place 'p', in exchange for the rule there if 'swap'. */
  function Placed(l: seq<Rule>, p: nat, r: Rule, swap: bool): (l': seq<Rule>)
    requires p <= |l| && (swap ==> p < |l|)
    ensures l' != []
  {
    l[..p] + [r] + l[if swap then p + 1 else p..]
  }

  lemma PlacedDescending(l: seq<Rule>, p: nat, r: Rule, swap: bool)
    requires Descending(l) && p <= |l| && (swap ==> p < |l| && l[p].priority == r.priority)
    requires forall a :: 0 <= a < p ==> l[a].priority > r.priority
    requires !swap && p < |l| ==> r.priority > l[p].priority
    ensures Descending(Placed(l, p, r, swap))
  {
  }

  lemma PlacedElements(l: seq<Rule>, p: nat, r: Rule, swap: bool, x: Rule)
    requires Descending(l) && p <= |l| && (swap ==> p < |l|)
    ensures x in Placed(l, p, r, swap) <==> x == r || (x in l && !(swap && x == l[p]))
  {
    assert l == l[..p] + l[p..];
    if swap {
      assert l[p..] == [l[p]] + l[p + 1..];
      Once(l, p);
    }
  }

  /** Descending priorities are pairwise distinct, and so are the rules. */
  lemma Once(l: seq<Rule>, p: nat)
    requires Descending(l) && p < |l|
    ensures l[p] !in l[..p] && l[p] !in l[p + 1..]
  {
  }

  /** Changing one list changes the set of rules by that list's elements. */
  lemma SetOfUpdate(s: Subtable, k: nat, l: seq<Rule>, x: Rule)
    requires ListsOk(s) && k < |s.rules|
    ensures x in RuleSet(s.rules[k := l]) <==> x in l || (x in RuleSet(s.rules) && x !in s.rules[k])
  {
    hide Descending;
    var rules' := s.rules[k := l];
    if x in l { assert x in rules'[k]; }
    if x in RuleSet(s.rules) && x !in s.rules[k] {
      var j :| 0 <= j < |s.rules| && x in s.rules[j];
      assert x in rules'[j];
    }
    if x in RuleSet(rules') && x !in l {
      var j :| 0 <= j < |rules'| && x in rules'[j];
      assert x in s.rules[j] && j != k;
      NotInBoth(s, j, k, x);
    }
  }

  lemma NotInBoth(s: Subtable, j: nat, k: nat, x: Rule)
    requires ListsOk(s) && j < |s.rules| && k < |s.rules| && x in s.rules[j] && j != k
    ensures x !in s.rules[k]
  {
    hide Descending;
    assert ListOk(s.rules[j], s.mask) && ListOk(s.rules[k], s.mask);
    assert s.rules[j][0].flow == x.flow;
  }

  /** No rule is in two lists. */
  lemma OneList(s: Subtable, j: nat, k: nat, x: Rule)
    requires ListsOk(s) && j < |s.rules| && k < |s.rules| && x in s.rules[j] && x in s.rules[k]
    ensures j == k
  {
    assert ListOk(s.rules[j], s.mask) && ListOk(s.rules[k], s.mask);
  }

  /** A rule with a match that is new to the subtable starts a list of its own. */
  lemma NewList(s: Subtable, r: Rule)
    requires ListsOk(s) && r.mask == s.mask
    requires forall k :: 0 <= k < |s.rules| ==> s.rules[k][0].flow != r.flow
    ensures ListsOk(s.(rules := s.rules + [[r]]))
    ensures RuleSet(s.rules + [[r]]) == RuleSet(s.rules) + {r}
    ensures forall x :: x in RuleSet(s.rules) ==> x.flow != r.flow
  {
    hide Descending;
    var rules' := s.rules + [[r]];
    SingletonOk(r);
    forall x ensures x in RuleSet(rules') <==> x in RuleSet(s.rules) + {r} {
      if x in RuleSet(s.rules) {
        var k :| 0 <= k < |s.rules| && x in s.rules[k];
        assert x in rules'[k];
      }
      assert r in rules'[|s.rules|];
    }
    forall x | x in RuleSet(s.rules) ensures x.flow != r.flow {
      var k :| 0 <= k < |s.rules| && x in s.rules[k];
      assert ListOk(s.rules[k], s.mask);
    }
  }

  lemma SingletonOk(r: Rule)
    ensures ListOk([r], r.mask)
  {
  }

  /** The place for 'r' in its list: after the higher priorities, before the lower. */
  ghost predicate IsPlace(l: seq<Rule>, p: nat, r: Rule, swap: bool) {
    && p <= |l| && (swap ==> p < |l| && l[p].priority == r.priority)
    && (forall a :: 0 <= a < p ==> l[a].priority > r.priority)
    && (!swap && p < |l| ==> r.priority > l[p].priority)
  }

  lemma PlacedOk(l: seq<Rule>, mask: FlowBits, p: nat, r: Rule, swap: bool)
    requires ListOk(l, mask) && r.mask == mask && r.flow == l[0].flow && IsPlace(l, p, r, swap)
    ensures ListOk(Placed(l, p, r, swap), mask) && Placed(l, p, r, swap)[0].flow == r.flow
    ensures forall x :: x in l && x.priority == r.priority ==> swap && x == l[p]
  {
    PlacedDescending(l, p, r, swap);
    hide Descending, Placed;
    forall x | x in Placed(l, p, r, swap) ensures x.mask == mask && x.flow == r.flow { PlacedElements(l, p, r, swap, x); }
    SamePriority(l, p, r, swap);
  }

  lemma SamePriority(l: seq<Rule>, p: nat, r: Rule, swap: bool)
    requires Descending(l) && IsPlace(l, p, r, swap)
    ensures forall x :: x in l && x.priority == r.priority ==> swap && x == l[p]
  {
    forall x | x in l && x.priority == r.priority ensures swap && x == l[p] {
      var a :| 0 <= a < |l| && l[a] == x;
    }
  }

  /** A rule whose match is there already joins its list, and replaces a rule of its priority. */
  lemma JoinList(s: Subtable, k: nat, p: nat, r: Rule, swap: bool)
    requires ListsOk(s) && r.mask == s.mask && k < |s.rules| && s.rules[k][0].flow == r.flow
    requires IsPlace(s.rules[k], p, r, swap)
    ensures ListsOk(s.(rules := s.rules[k := Placed(s.rules[k], p, r, swap)]))
    ensures RuleSet(s.rules[k := Placed(s.rules[k], p, r, swap)]) == RuleSet(s.rules) - (if swap then {s.rules[k][p]} else {}) + {r}
    ensures forall x :: x in RuleSet(s.rules) && x.flow == r.flow && x.priority == r.priority ==> swap && x == s.rules[k][p]
  {
    hide Descending, Placed, RuleSet;
    var l, l' := s.rules[k], Placed(s.rules[k], p, r, swap);
    assert ListOk(l, s.mask);
    PlacedOk(l, s.mask, p, r, swap);
    var all := RuleSet(s.rules) - (if swap then {l[p]} else {}) + {r};
    forall x ensures x in RuleSet(s.rules[k := l']) <==> x in all {
      SetOfUpdate(s, k, l', x);
      SetOfUpdate(s, k, l, x);
      assert s.rules[k := l] == s.rules;
      PlacedElements(l, p, r, swap, x);
    }
    forall x | x in RuleSet(s.rules) && x.flow == r.flow && x.priority == r.priority ensures swap && x == l[p] {
      SameFlowSameList(s, k, x);
    }
  }

  lemma SameFlowSameList(s: Subtable, k: nat, x: Rule)
    requires ListsOk(s) && k < |s.rules| && x in RuleSet(s.rules) && x.flow == s.rules[k][0].flow
    ensures x in s.rules[k]
  {
    var j :| 0 <= j < |s.rules| && x in s.rules[j];
    assert ListOk(s.rules[j], s.mask);
  }

  /** Taking the rule at place 'p' out of list 'k', and the list too if nothing else is in it. */
  function Removed(rules: seq<seq<Rule>>, k: nat, p: nat): seq<seq<Rule>>
    requires k < |rules| && p < |rules[k]|
  {
    var l := rules[k][..p] + rules[k][p + 1..];
    if l == [] then rules[..k] + rules[k + 1..] else rules[k := l]
  }

  lemma RemovedOk(s: Subtable, k: nat, p: nat)
    requires ListsOk(s) && k < |s.rules| && p < |s.rules[k]|
    ensures ListsOk(s.(rules := Removed(s.rules, k, p)))
    ensures RuleSet(Removed(s.rules, k, p)) == RuleSet(s.rules) - {s.rules[k][p]}
  {
    hide Descending, RuleSet;
    var l, x := s.rules[k], s.rules[k][p];
    var l' := l[..p] + l[p + 1..];
    assert ListOk(l, s.mask);
    DropOk(l, p, s.mask);
    var rules' := s.rules[k := l'];
    forall y ensures y in RuleSet(rules') <==> y in RuleSet(s.rules) - {x} {
      SetOfUpdate(s, k, l', y);
      SetOfUpdate(s, k, l, y);
      assert s.rules[k := l] == s.rules;
    }
    if l' == [] { DropEmpty(s.rules, k, l'); }
  }

  lemma DropOk(l: seq<Rule>, p: nat, mask: FlowBits)
    requires ListOk(l, mask) && p < |l|
    ensures var l' := l[..p] + l[p + 1..];
            (l' != [] ==> ListOk(l', mask) && l'[0].flow == l[0].flow)
    ensures forall y :: y in l[..p] + l[p + 1..] <==> y in l && y != l[p]
  {
    hide Descending;
    Once(l, p);
    DropDescending(l, p);
    assert l == l[..p] + [l[p]] + l[p + 1..];
    var l' := l[..p] + l[p + 1..];
    if l' != [] { assert l'[0] in l'; }
  }

  lemma DropDescending(l: seq<Rule>, p: nat)
    requires Descending(l) && p < |l|
    ensures Descending(l[..p] + l[p + 1..])
  {
  }

  lemma DropEmpty(rules: seq<seq<Rule>>, k: nat, l: seq<Rule>)
    requires k < |rules| && l == []
    ensures RuleSet(rules[..k] + rules[k + 1..]) == RuleSet(rules[k := l])
  {
    var a, b := rules[..k] + rules[k + 1..], rules[k := l];
    forall x ensures x in RuleSet(a) <==> x in RuleSet(b) {
      if x in RuleSet(a) {
        var j :| 0 <= j < |a| && x in a[j];
        assert x in b[if j < k then j else j + 1];
      }
      if x in RuleSet(b) {
        var j :| 0 <= j < |b| && x in b[j];
        assert x in a[if j < k then j else j - 1];
      }
    }
  }

  // ----- staged indices

  function Chain(index: map<nat, seq<Rule>>, x: nat): seq<Rule> {
    if x in index then index[x] else []
  }

  function StageKey(h: Hasher, s: Subtable, i: nat, r: Rule): nat
    requires i < |s.ofs| && s.ofs[i] <= FLOW_U32S
  {
    StageHash(h, r.flow, s.mask, s.ofs[i])
  }

  type Index = map<nat, seq<Rule>>

  ghost predicate NoEmptyChain(m: Index) {
    forall x :: x in m ==> m[x] != []
  }

  /** `hindex_insert`. */
  function AddTo(m: Index, x: nat, r: Rule): (m': Index)
    ensures Chain(m', x) == Chain(m, x) + [r]
    ensures forall y :: y != x ==> Chain(m', y) == Chain(m, y)
    ensures NoEmptyChain(m) ==> NoEmptyChain(m')
  {
    m[x := Chain(m, x) + [r]]
  }

  function Without(l: seq<Rule>, r: Rule): (l': seq<Rule>)
    ensures forall x :: x in l' <==> x in l && x != r
  {
    if l == [] then [] else (if l[0] == r then [] else [l[0]]) + Without(l[1..], r)
  }

  /** `hindex_remove`. */
  function DropFrom(m: Index, x: nat, r: Rule): (m': Index)
    ensures Chain(m', x) == Without(Chain(m, x), r)
    ensures forall y :: y != x ==> Chain(m', y) == Chain(m, y)
    ensures NoEmptyChain(m) ==> NoEmptyChain(m')
  {
    var l := Without(Chain(m, x), r);
    if l == [] then m - {x} else m[x := l]
  }

  predicate OfsOk(s: Subtable) {
    |s.indices| == |s.ofs| && forall i :: 0 <= i < |s.ofs| ==> s.ofs[i] <= FLOW_U32S
  }

  /** A rule goes into every index, under the hash of the words before its end. */
  function FileRule(h: Hasher, s: Subtable, r: Rule): (ix: seq<Index>)
    requires OfsOk(s)
    ensures |ix| == |s.ofs| && forall i :: 0 <= i < |s.ofs| ==> ix[i] == AddTo(s.indices[i], StageKey(h, s, i, r), r)
  {
    seq(|s.ofs|, i requires 0 <= i < |s.ofs| => AddTo(s.indices[i], StageKey(h, s, i, r), r))
  }

  function UnfileRule(h: Hasher, s: Subtable, r: Rule): (ix: seq<Index>)
    requires OfsOk(s)
    ensures |ix| == |s.ofs| && forall i :: 0 <= i < |s.ofs| ==> ix[i] == DropFrom(s.indices[i], StageKey(h, s, i, r), r)
  {
    seq(|s.ofs|, i requires 0 <= i < |s.ofs| => DropFrom(s.indices[i], StageKey(h, s, i, r), r))
  }

  /** Index 'i' files exactly the rules in 'all', each under its own hash. */
  ghost predicate IndexedAt(h: Hasher, s: Subtable, all: set<Rule>, i: nat)
    requires OfsOk(s) && i < |s.ofs|
  {
    && NoEmptyChain(s.indices[i])
    && forall x, r :: r in Chain(s.indices[i], x) <==> r in all && StageKey(h, s, i, r) == x
  }

  /** Every index files exactly the rules in 'all'. */
  ghost predicate Indexed(h: Hasher, s: Subtable, all: set<Rule>) {
    && OfsOk(s)
    && (forall i, j :: 0 <= i < j < |s.ofs| ==> s.ofs[i] <= s.ofs[j])
    && (forall i :: 0 <= i < |s.ofs| ==> IndexedAt(h, s, all, i))
  }

  lemma FileKeeps(h: Hasher, s: Subtable, all: set<Rule>, r: Rule)
    requires Indexed(h, s, all)
    ensures Indexed(h, s.(indices := FileRule(h, s, r)), all + {r})
  {
    hide StageHash, FileRule, AddTo, Chain;
    var s' := s.(indices := FileRule(h, s, r));
    forall i | 0 <= i < |s.ofs| ensures IndexedAt(h, s', all + {r}, i) {
      assert IndexedAt(h, s, all, i);
      var x0 := StageKey(h, s, i, r);
      assert s'.indices[i] == AddTo(s.indices[i], x0, r);
      forall x, y ensures y in Chain(s'.indices[i], x) <==> y in all + {r} && StageKey(h, s', i, y) == x {
        assert StageKey(h, s', i, y) == StageKey(h, s, i, y);
        assert y in Chain(s.indices[i], x) <==> y in all && StageKey(h, s, i, y) == x;
      }
    }
  }

  lemma UnfileKeeps(h: Hasher, s: Subtable, all: set<Rule>, r: Rule)
    requires Indexed(h, s, all)
    ensures Indexed(h, s.(indices := UnfileRule(h, s, r)), all - {r})
  {
    hide StageHash, UnfileRule, DropFrom, Chain, Without;
    var s' := s.(indices := UnfileRule(h, s, r));
    forall i | 0 <= i < |s.ofs| ensures IndexedAt(h, s', all - {r}, i) {
      assert IndexedAt(h, s, all, i);
      var x0 := StageKey(h, s, i, r);
      assert s'.indices[i] == DropFrom(s.indices[i], x0, r);
      forall x, y ensures y in Chain(s'.indices[i], x) <==> y in all - {r} && StageKey(h, s', i, y) == x {
        assert StageKey(h, s', i, y) == StageKey(h, s, i, y);
        assert y in Chain(s.indices[i], x) <==> y in all && StageKey(h, s, i, y) == x;
      }
    }
  }

  lemma IndexedIsOk(h: Hasher, s: Subtable)
    requires Indexed(h, s, RuleSet(s.rules))
    ensures IndicesOk(h, s)
  {
    hide StageHash, RuleSet;
    forall i, r | 0 <= i < |s.ofs| && Has(s, r) ensures Filed(h, s, i, r) {
      HasIsIn(s, r);
      assert IndexedAt(h, s, RuleSet(s.rules), i);
      assert r in Chain(s.indices[i], StageKey(h, s, i, r));
    }
    forall i, x, r | 0 <= i < |s.ofs| && x in s.indices[i] && r in s.indices[i][x]
      ensures Has(s, r) && StageHash(h, r.flow, s.mask, s.ofs[i]) == x
    {
      HasIsIn(s, r);
      assert IndexedAt(h, s, RuleSet(s.rules), i);
      assert r in Chain(s.indices[i], x);
    }
    forall i, x | 0 <= i < |s.ofs| && x in s.indices[i] ensures s.indices[i][x] != [] {
      assert IndexedAt(h, s, RuleSet(s.rules), i);
    }
  }
}
