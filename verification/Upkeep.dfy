/**
 The classifier's running totals: the maximum priority of a subtable and how often it
 occurs, the order of the subtables, and the tags of each metadata partition.
 */
module Upkeep {
  import opened Bits
  import opened Flow
  import opened Lookup
  import opened Tables
  import opened Classify

  // ----- maximum priorities

  function AtPriority(rules: set<Rule>, p: nat): set<Rule> {
    set r | r in rules && r.priority == p
  }

  /** 'p' is the largest priority in 'rules' and 'n' the number of rules that have it. */
  ghost predicate MaxExact(rules: set<Rule>, p: nat, n: nat) {
    && (forall r :: r in rules ==> r.priority <= p)
    && n == |AtPriority(rules, p)|
    && (rules != {} ==> n > 0)
    && (rules == {} ==> p == 0)
  }

  /** `update_subtables_after_insertion`, first half. */
  lemma MaxAfterInsert(rules: set<Rule>, p: nat, n: nat, r: Rule)
    requires MaxExact(rules, p, n) && r !in rules
    ensures MaxExact(rules + {r}, if r.priority > p then r.priority else p,
                     if r.priority > p then 1 else if r.priority == p then n + 1 else n)
  {
    var q := if r.priority > p then r.priority else p;
    if r.priority < p {
      assert AtPriority(rules + {r}, p) == AtPriority(rules, p);
    } else if r.priority == p {
      assert AtPriority(rules + {r}, p) == AtPriority(rules, p) + {r};
    } else {
      assert AtPriority(rules + {r}, q) == {r};
    }
  }

  /** `update_subtables_after_removal`, when the maximum survives. */
  lemma MaxAfterRemove(rules: set<Rule>, p: nat, n: nat, r: Rule)
    requires MaxExact(rules, p, n) && r in rules
    ensures r.priority < p ==> MaxExact(rules - {r}, p, n)
    ensures r.priority == p && n > 1 ==> MaxExact(rules - {r}, p, n - 1)
    ensures r.priority == p && n == 1 ==> forall x :: x in rules - {r} ==> x.priority < p
  {
    var top := AtPriority(rules, p);
    if r.priority == p {
      assert AtPriority(rules - {r}, p) == top - {r};
      assert rules == {r} ==> top == {r};
      if n == 1 {
        forall x | x in rules - {r} ensures x.priority < p {
          if {r, x} <= top { SubsetSize({r, x}, top); }
        }
      } else {
        assert rules - {r} != {} by { assert |top - {r}| == n - 1; }
      }
    } else {
      assert AtPriority(rules - {r}, p) == top;
      assert top <= rules - {r};
    }
  }

  lemma {:induction false} SubsetSize<T>(a: set<T>, b: set<T>)
    requires a <= b
    ensures |a| <= |b|
  {
    if a != {} {
      var x :| x in a;
      SubsetSize(a - {x}, b - {x});
    }
  }

  /** A list adds its head to the maximum, and nothing else. */
  lemma MaxOfList(rules: set<Rule>, p: nat, n: nat, l: seq<Rule>, mask: FlowBits)
    requires MaxExact(rules, p, n) && ListOk(l, mask) && forall r :: r in l ==> r !in rules
    ensures MaxExact(rules + (set r | r in l), if l[0].priority > p then l[0].priority else p,
                     if l[0].priority > p then 1 else if l[0].priority == p then n + 1 else n)
  {
    var all, head := rules + (set r | r in l), l[0];
    MaxAfterInsert(rules, p, n, head);
    var q := if head.priority > p then head.priority else p;
    forall r | r in l ensures r == head || r.priority < head.priority {
      var a :| 0 <= a < |l| && l[a] == r;
    }
    assert AtPriority(all, q) == AtPriority(rules + {head}, q);
  }

  /** `update_subtables_after_removal`: the maximum over the heads is the maximum over all rules. */
  method MaxOfHeads(s: Subtable) returns (p: nat, n: nat)
    requires ListsOk(s)
    ensures MaxExact(RuleSet(s.rules), p, n)
  {
    hide RuleSet, MaxExact, Descending, AtPriority;
    p, n := 0, 0;
    MaxOfNone(s.rules);
    for k := 0 to |s.rules|
      invariant MaxExact(RuleSet(s.rules[..k]), p, n)
    {
      var head := s.rules[k][0];
      assert ListOk(s.rules[k], s.mask);
      NextList(s, k);
      MaxOfList(RuleSet(s.rules[..k]), p, n, s.rules[k], s.mask);
      if head.priority > p {
        p, n := head.priority, 1;
      } else if head.priority == p {
        n := n + 1;
      }
    }
    assert s.rules[..|s.rules|] == s.rules;
  }

  lemma MaxOfNone(rules: seq<seq<Rule>>)
    ensures MaxExact(RuleSet(rules[..0]), 0, 0)
  {
    assert RuleSet(rules[..0]) == {};
  }

  lemma NextList(s: Subtable, k: nat)
    requires ListsOk(s) && k < |s.rules|
    ensures RuleSet(s.rules[..k + 1]) == RuleSet(s.rules[..k]) + set r | r in s.rules[k]
    ensures forall r :: r in s.rules[k] ==> r !in RuleSet(s.rules[..k])
  {
    hide ListOk;
    var a, b := s.rules[..k + 1], s.rules[..k];
    forall x ensures x in RuleSet(a) <==> x in RuleSet(b) || x in s.rules[k] {
      if x in RuleSet(b) {
        var j :| 0 <= j < |b| && x in b[j];
        assert x in a[j];
      }
      if x in s.rules[k] { assert x in a[k]; }
      if x in RuleSet(a) && x !in s.rules[k] {
        var j :| 0 <= j < |a| && x in a[j];
        assert x in b[j];
      }
    }
    forall r | r in s.rules[k] ensures r !in RuleSet(b) {
      if r in RuleSet(b) {
        var j :| 0 <= j < |b| && r in b[j];
        OneList(s, j, k, r);
      }
    }
  }

  // ----- the order of the subtables

  ghost predicate Sorted(subs: seq<Subtable>) {
    forall k, l :: 0 <= k < l < |subs| ==> subs[k].maxPriority >= subs[l].maxPriority
  }

  /** All but the subtable at 'k' are in order. */
  ghost predicate SortedBut(subs: seq<Subtable>, k: nat) {
    forall a, b :: 0 <= a < b < |subs| && a != k && b != k ==> subs[a].maxPriority >= subs[b].maxPriority
  }

  /** The subtables with the one at 'k' moved to 'j'. */
  function Moved(subs: seq<Subtable>, k: nat, j: nat): (r: seq<Subtable>)
    requires k < |subs| && j < |subs|
    ensures |r| == |subs|
  {
    if j <= k then subs[..j] + [subs[k]] + subs[j..k] + subs[k + 1..]
    else subs[..k] + subs[k + 1..j + 1] + [subs[k]] + subs[j + 1..]
  }

  lemma MovedSame(subs: seq<Subtable>, k: nat, j: nat)
    requires k < |subs| && j < |subs|
    ensures multiset(Moved(subs, k, j)) == multiset(subs)
  {
    if j <= k {
      Parts(subs, j, k, k + 1);
      Exchange(subs[..j], subs[j..k], [subs[k]], subs[k + 1..]);
    } else {
      Parts(subs, k, k + 1, j + 1);
      Exchange(subs[..k], [subs[k]], subs[k + 1..j + 1], subs[j + 1..]);
    }
  }

  lemma Parts(s: seq<Subtable>, a: nat, b: nat, c: nat)
    requires a <= b <= c <= |s|
    ensures s == s[..a] + s[a..b] + s[b..c] + s[c..]
    ensures b + 1 == c ==> s[b..c] == [s[b]]
    ensures a + 1 == b ==> s[a..b] == [s[a]]
  {
  }

  lemma Exchange(a: seq<Subtable>, b: seq<Subtable>, c: seq<Subtable>, d: seq<Subtable>)
    ensures multiset(a + b + c + d) == multiset(a + c + b + d)
  {
  }

  /** `update_subtables_after_insertion`, second half: the subtable at 'k' may have risen. */
  method MoveEarlier(subs: seq<Subtable>, k: nat) returns (r: seq<Subtable>, j: nat)
    requires k < |subs| && SortedBut(subs, k)
    requires forall b :: k < b < |subs| ==> subs[k].maxPriority >= subs[b].maxPriority
    ensures j <= k && r == Moved(subs, k, j) && Sorted(r) && r[j] == subs[k]
  {
    hide Sorted, SortedBut;
    j := k;
    while j > 0 && subs[j - 1].maxPriority < subs[k].maxPriority
      invariant j <= k
      invariant forall b :: j <= b < k ==> subs[b].maxPriority < subs[k].maxPriority
    {
      j := j - 1;
    }
    r := subs[..j] + [subs[k]] + subs[j..k] + subs[k + 1..];
    EarlierSorted(subs, k, j);
  }

  lemma EarlierSorted(subs: seq<Subtable>, k: nat, j: nat)
    requires j <= k < |subs| && SortedBut(subs, k)
    requires forall b :: k < b < |subs| ==> subs[k].maxPriority >= subs[b].maxPriority
    requires forall b :: j <= b < k ==> subs[b].maxPriority < subs[k].maxPriority
    requires j > 0 ==> subs[j - 1].maxPriority >= subs[k].maxPriority
    ensures Sorted(Moved(subs, k, j)) && Moved(subs, k, j)[j] == subs[k]
  {
    hide Moved;
    var r := Moved(subs, k, j);
    forall i: nat | i < |subs| ensures r[i] == subs[From(k, j, i)] { MovedAt(subs, k, j, i); }
    assert r[j] == subs[From(k, j, j)];
    forall a: nat, b: nat | a < b < |r| ensures r[a].maxPriority >= r[b].maxPriority {
      assert r[a] == subs[From(k, j, a)] && r[b] == subs[From(k, j, b)];
    }
  }

  /** Where the subtable at 'i' came from when the one at 'k' moved forward to 'j'. */
  function From(k: nat, j: nat, i: nat): nat {
    if i < j || i > k then i else if i == j then k else i - 1
  }

  lemma MovedAt(subs: seq<Subtable>, k: nat, j: nat, i: nat)
    requires j <= k < |subs| && i < |subs|
    ensures From(k, j, i) < |subs| && Moved(subs, k, j)[i] == subs[From(k, j, i)]
  {
  }

  /** `update_subtables_after_removal`, second half: the subtable at 'k' may have sunk. */
  method MoveLater(subs: seq<Subtable>, k: nat) returns (r: seq<Subtable>, j: nat)
    requires k < |subs| && SortedBut(subs, k)
    requires forall a :: 0 <= a < k ==> subs[a].maxPriority >= subs[k].maxPriority
    ensures k <= j < |subs| && r == Moved(subs, k, j) && Sorted(r) && r[j] == subs[k]
  {
    hide Sorted, SortedBut;
    j := k;
    while j + 1 < |subs| && subs[j + 1].maxPriority > subs[k].maxPriority
      invariant k <= j < |subs|
      invariant forall b :: k < b <= j ==> subs[b].maxPriority > subs[k].maxPriority
    {
      j := j + 1;
    }
    r := subs[..k] + subs[k + 1..j + 1] + [subs[k]] + subs[j + 1..];
    if j == k { assert r == subs[..j] + [subs[k]] + subs[j..k] + subs[k + 1..]; }
    LaterSorted(subs, k, j);
  }

  lemma LaterSorted(subs: seq<Subtable>, k: nat, j: nat)
    requires k <= j < |subs| && SortedBut(subs, k)
    requires forall a :: 0 <= a < k ==> subs[a].maxPriority >= subs[k].maxPriority
    requires forall b :: k < b <= j ==> subs[b].maxPriority > subs[k].maxPriority
    requires j + 1 < |subs| ==> subs[j + 1].maxPriority <= subs[k].maxPriority
    ensures Sorted(Moved(subs, k, j)) && Moved(subs, k, j)[j] == subs[k]
  {
    hide Moved;
    var r := Moved(subs, k, j);
    forall i: nat | i < |subs| ensures r[i] == subs[LaterFrom(k, j, i)] { MovedLaterAt(subs, k, j, i); }
    assert r[j] == subs[LaterFrom(k, j, j)];
    forall a: nat, b: nat | a < b < |r| ensures r[a].maxPriority >= r[b].maxPriority {
      assert r[a] == subs[LaterFrom(k, j, a)] && r[b] == subs[LaterFrom(k, j, b)];
    }
  }

  /** The same for the one at 'k' moved back to 'j'. */
  function LaterFrom(k: nat, j: nat, i: nat): nat {
    if i < k || i > j then i else if i == j then k else i + 1
  }

  lemma MovedLaterAt(subs: seq<Subtable>, k: nat, j: nat, i: nat)
    requires k <= j < |subs| && i < |subs|
    ensures LaterFrom(k, j, i) < |subs| && Moved(subs, k, j)[i] == subs[LaterFrom(k, j, i)]
  {
  }

  // ----- metadata partitions

  /** `tag_create_deterministic`: two different bits out of 32. */
  function TagFrom(seed: nat): (t: set<nat>)
    ensures t <= TAG_BITS && |t| == 2
  {
    var x := seed % 32;
    var y := seed / 32 % 31;
    var y' := if y >= x then y + 1 else y;
    {x, y'}
  }

  /** Every pair of different bits is the tag of some seed. */
  lemma TagFromOnto(a: nat, b: nat)
    requires a < 32 && b < 32 && a != b
    ensures exists seed: nat :: TagFrom(seed) == {a, b}
  {
    var y := if b > a then b - 1 else b;
    var seed := 32 * y + a;
    assert seed % 32 == a && seed / 32 % 31 == y;
    assert TagFrom(seed) == {a, b};
  }

  /** The tag of a subtable, from its mask. */
  function TagOf(h: Hasher, mask: FlowBits): (t: set<nat>)
    ensures t <= TAG_BITS && |t| >= 2
  {
    TagBitsSize();
    if ExactMetadata(mask) then TagFrom(h.ofMask(mask)) else TAG_BITS
  }

  lemma TagBitsSize()
    ensures |TAG_BITS| >= 2
  {
    SubsetSize({0, 1}, TAG_BITS);
  }

  /** A `cls_partition`: its tags, and for each tag bit the number of rules that set it. */
  datatype Partition = Partition(tags: set<nat>, counts: seq<nat>)

  /** The rules that fix their metadata to 'm'. */
  function RulesAt(all: set<Rule>, m: Bits): set<Rule> {
    set r | r in all && ExactMetadata(r.mask) && Metadata(r.flow) == m
  }

  function WithBit(h: Hasher, rules: set<Rule>, b: nat): set<Rule> {
    set r | r in rules && b in TagOf(h, r.mask)
  }

  /** The partition counts exactly the tag bits of the rules in 'rules'. */
  ghost predicate Tracks(h: Hasher, p: Partition, rules: set<Rule>) {
    && |p.counts| == 32
    && (forall b :: 0 <= b < 32 ==> p.counts[b] == |WithBit(h, rules, b)|)
    && p.tags == Positive(p.counts)
  }

  /** `tag_tracker_add`. */
  method TrackAdd(h: Hasher, p: Partition, ghost rules: set<Rule>, r: Rule) returns (p': Partition)
    requires Tracks(h, p, rules) && r !in rules
    ensures Tracks(h, p', rules + {r})
  {
    hide TagOf;
    var tag := TagOf(h, r.mask);
    var counts := p.counts;
    for b := 0 to 32
      invariant |counts| == 32
      invariant forall c :: 0 <= c < 32 ==> counts[c] == p.counts[c] + if c < b && c in tag then 1 else 0
    {
      if b in tag { counts := counts[b := counts[b] + 1]; }
    }
    p' := Partition(p.tags + tag, counts);
    AddedTags(p.counts, counts, tag);
    forall b | 0 <= b < 32 ensures p'.counts[b] == |WithBit(h, rules + {r}, b)| {
      assert WithBit(h, rules + {r}, b) == WithBit(h, rules, b) + if b in tag then {r} else {};
    }
  }

  function Positive(counts: seq<nat>): set<nat>
    requires |counts| == 32
  {
    set b: nat | b < 32 && counts[b] > 0
  }

  lemma AddedTags(counts: seq<nat>, counts': seq<nat>, tag: set<nat>)
    requires |counts| == |counts'| == 32 && tag <= TAG_BITS
    requires forall c :: 0 <= c < 32 ==> counts'[c] == counts[c] + if c in tag then 1 else 0
    ensures Positive(counts') == Positive(counts) + tag
  {
    assert forall b :: b in tag ==> b in TAG_BITS;
  }

  /** `tag_tracker_subtract`. */
  method TrackSubtract(h: Hasher, p: Partition, ghost rules: set<Rule>, r: Rule) returns (p': Partition)
    requires Tracks(h, p, rules) && r in rules
    ensures Tracks(h, p', rules - {r})
  {
    hide TagOf, WithBit;
    var tag := TagOf(h, r.mask);
    var counts, tags := p.counts, p.tags;
    WithoutRule(h, rules, r);
    for b := 0 to 32
      invariant |counts| == 32
      invariant forall c :: 0 <= c < 32 ==> counts[c] == p.counts[c] - if c < b && c in tag then 1 else 0
      invariant tags == Positive(counts)
    {
      if b in tag {
        assert p.counts[b] == |WithBit(h, rules, b)|;
        counts := counts[b := counts[b] - 1];
        if counts[b] == 0 { tags := tags - {b}; }
      }
    }
    p' := Partition(tags, counts);
  }

  lemma WithoutRule(h: Hasher, rules: set<Rule>, r: Rule)
    requires r in rules
    ensures forall b: nat :: |WithBit(h, rules - {r}, b)| == |WithBit(h, rules, b)| - if b in TagOf(h, r.mask) then 1 else 0
  {
    hide TagOf;
    forall b: nat ensures |WithBit(h, rules - {r}, b)| == |WithBit(h, rules, b)| - if b in TagOf(h, r.mask) then 1 else 0 {
      assert WithBit(h, rules - {r}, b) == WithBit(h, rules, b) - if b in TagOf(h, r.mask) then {r} else {};
    }
  }

  /** What lookup needs of a partition that has a rule. */
  lemma TracksMeans(h: Hasher, p: Partition, rules: set<Rule>)
    requires Tracks(h, p, rules)
    ensures p.tags <= TAG_BITS
    ensures forall r :: r in rules ==> TagOf(h, r.mask) <= p.tags
    ensures rules != {} ==> |p.tags| >= 2
    ensures rules == {} <==> p.tags == {}
  {
    hide TagOf;
    forall r | r in rules ensures TagOf(h, r.mask) <= p.tags {
      forall b | b in TagOf(h, r.mask) ensures b in p.tags {
        assert b in TAG_BITS && r in WithBit(h, rules, b);
      }
    }
    if rules != {} {
      var r :| r in rules;
      SubsetSize(TagOf(h, r.mask), p.tags);
    } else {
      assert forall b: nat :: b < 32 ==> WithBit(h, rules, b) == {};
    }
  }
}
