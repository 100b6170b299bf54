/** `trie_init`: filling a new trie from the rules that are already there. */
module Rebuild {
  import opened Bits
  import opened Flow
  import opened Lookup
  import opened Tables
  import opened Upkeep
  import opened PrefixMasks
  import opened State
  import opened SubtableOps
  import opened SubtableList
  import opened TrieBank

  // ----- new prefix lengths for every subtable

  lemma {:induction false} OnceEach(subs: seq<Subtable>, s: Subtable)
    requires forall i, j :: 0 <= i < j < |subs| ==> subs[i].mask != subs[j].mask
    requires s in subs
    ensures multiset(subs)[s] == 1
  {
    var i :| 0 <= i < |subs| && subs[i] == s;
    assert subs == subs[..i] + [s] + subs[i + 1..];
    assert forall j :: 0 <= j < i ==> subs[j].mask != s.mask;
    assert s !in subs[..i] && s !in subs[i + 1..];
  }

  lemma TwiceIsTwo(subs: seq<Subtable>, i: nat, j: nat)
    requires i < j < |subs| && subs[i] == subs[j]
    ensures multiset(subs)[subs[i]] >= 2
  {
    var s := subs[i];
    assert subs == subs[..j] + subs[j..];
    assert subs[..j][i] == s && subs[j..][0] == s;
    assert s in multiset(subs[..j]) && s in multiset(subs[j..]);
  }

  lemma MasksDiffer(h: Hasher, segments: seq<nat>, fields: seq<Field>, subs: seq<Subtable>, all: set<Rule>)
    requires TablesOk(h, segments, fields, multiset(subs), all)
    ensures forall i, j :: 0 <= i < j < |subs| ==> subs[i].mask != subs[j].mask
  {
    hide SubExact, RuleSet;
    forall i, j | 0 <= i < j < |subs| ensures subs[i].mask != subs[j].mask {
      assert subs[i] in multiset(subs) && subs[j] in multiset(subs);
      if subs[i].mask == subs[j].mask { TwiceIsTwo(subs, i, j); }
    }
  }

  /** 't' is 's' with the prefix lengths for 'fields'. */
  ghost predicate Measured(s: Subtable, t: Subtable, fields: seq<Field>) {
    && t == s.(plens := t.plens)
    && |t.plens| == |fields| && forall j :: 0 <= j < |fields| ==> t.plens[j] == PrefixLen(s.mask, fields[j])
  }

  lemma MeasuredExact(h: Hasher, segments: seq<nat>, fields: seq<Field>, fields': seq<Field>, s: Subtable, t: Subtable)
    requires SubExact(h, segments, fields, s) && Measured(s, t, fields')
    ensures SubExact(h, segments, fields', t)
  {
    hide Indexed, MaxExact, RuleSet, TagOf, StagesUseful, PrefixLen, ListOk;
    IndexedSame(h, s, t, RuleSet(s.rules));
    SameLists(s, t);
  }

  lemma MeasuredKeeps(subs: seq<Subtable>, subs': seq<Subtable>, fields: seq<Field>)
    requires |subs'| == |subs| && forall i :: 0 <= i < |subs| ==> Measured(subs[i], subs'[i], fields)
    ensures forall i :: 0 <= i < |subs| ==> subs'[i].mask == subs[i].mask && subs'[i].rules == subs[i].rules
    ensures Sorted(subs) ==> Sorted(subs')
  {
    hide PrefixLen;
    forall i | 0 <= i < |subs|
      ensures subs'[i].mask == subs[i].mask && subs'[i].rules == subs[i].rules && subs'[i].maxPriority == subs[i].maxPriority
    {
      assert Measured(subs[i], subs'[i], fields);
    }
  }

  /** Other fields change only the prefix lengths. */
  lemma Remeasured(h: Hasher, segments: seq<nat>, fields: seq<Field>, fields': seq<Field>, subs: seq<Subtable>, subs': seq<Subtable>, all: set<Rule>)
    requires TablesOk(h, segments, fields, multiset(subs), all) && Sorted(subs)
    requires |subs'| == |subs| && forall i :: 0 <= i < |subs| ==> Measured(subs[i], subs'[i], fields')
    ensures TablesOk(h, segments, fields', multiset(subs'), all) && Sorted(subs')
  {
    hide TablesOk, SubExact, Measured, Sorted, RulesTo;
    MeasuredKeeps(subs, subs', fields');
    MasksDiffer(h, segments, fields, subs, all);
    forall i | 0 <= i < |subs| ensures SubExact(h, segments, fields', subs'[i]) {
      OneOf(h, segments, fields, subs, all, i);
      MeasuredExact(h, segments, fields, fields', subs[i], subs'[i]);
    }
    AllRules(h, segments, fields, subs, all);
    SameRules(subs, subs');
    TablesFrom(h, segments, fields', subs', all);
  }

  /** The rules of the first 'i' subtables. */
  ghost function RulesTo(subs: seq<Subtable>, i: nat): set<Rule>
    requires i <= |subs|
  {
    set k, r | 0 <= k < i && r in RuleSet(subs[k].rules) :: r
  }

  lemma SameRules(subs: seq<Subtable>, subs': seq<Subtable>)
    requires |subs'| == |subs| && forall i :: 0 <= i < |subs| ==> subs'[i].rules == subs[i].rules
    ensures RulesTo(subs, |subs|) == RulesTo(subs', |subs|)
  {
    hide RuleSet;
  }

  lemma AllRules(h: Hasher, segments: seq<nat>, fields: seq<Field>, subs: seq<Subtable>, all: set<Rule>)
    requires TablesOk(h, segments, fields, multiset(subs), all)
    ensures RulesTo(subs, |subs|) == all && RulesTo(subs, 0) == {}
  {
    hide RuleSet, SubExact;
    forall r ensures r in RulesTo(subs, |subs|) <==> r in all {
      if r in RulesTo(subs, |subs|) {
        var k :| 0 <= k < |subs| && r in RuleSet(subs[k].rules);
        assert subs[k] in multiset(subs);
      }
      if r in all {
        var s :| s in multiset(subs) && r in RuleSet(s.rules);
        var k :| 0 <= k < |subs| && subs[k] == s;
      }
    }
  }

  lemma TablesFrom(h: Hasher, segments: seq<nat>, fields: seq<Field>, subs: seq<Subtable>, all: set<Rule>)
    requires forall i, j :: 0 <= i < j < |subs| ==> subs[i].mask != subs[j].mask
    requires forall i :: 0 <= i < |subs| ==> SubExact(h, segments, fields, subs[i])
    requires RulesTo(subs, |subs|) == all
    ensures TablesOk(h, segments, fields, multiset(subs), all)
  {
    hide SubExact, RuleSet;
    OnceAll(subs);
    forall s, r | s in multiset(subs) && r in RuleSet(s.rules) ensures r in all {
      var i :| 0 <= i < |subs| && subs[i] == s;
      assert r in RulesTo(subs, |subs|);
    }
    forall r | r in all ensures exists s :: s in multiset(subs) && r in RuleSet(s.rules) {
      var i :| 0 <= i < |subs| && r in RuleSet(subs[i].rules);
      assert subs[i] in multiset(subs);
    }
  }

  lemma OnceAll(subs: seq<Subtable>)
    requires forall i, j :: 0 <= i < j < |subs| ==> subs[i].mask != subs[j].mask
    ensures forall s :: s in multiset(subs) ==> multiset(subs)[s] == 1 && exists i :: 0 <= i < |subs| && subs[i] == s
    ensures forall s, t :: s in multiset(subs) && t in multiset(subs) && s.mask == t.mask ==> s == t
  {
    forall s | s in multiset(subs) ensures multiset(subs)[s] == 1 && exists i :: 0 <= i < |subs| && subs[i] == s { OnceEach(subs, s); }
    forall s, t | s in multiset(subs) && t in multiset(subs) && s.mask == t.mask ensures s == t {
      var i, j :| 0 <= i < |subs| && subs[i] == s && 0 <= j < |subs| && subs[j] == t;
    }
  }

  // ----- filling a trie

  /** The bag counts the prefixes of the rules in 'done'. */
  ghost predicate Counted(bag: multiset<Bits>, done: set<Rule>, fld: Field) {
    forall k :: bag[k] == |KeyRules(done, fld, k)|
  }

  lemma CountOne(bag: multiset<Bits>, done: set<Rule>, fld: Field, r: Rule)
    requires Counted(bag, done, fld) && r !in done && PrefixLen(r.mask, fld) > 0
    ensures Counted(bag + Stored(r, fld, PrefixLen(r.mask, fld)), done + {r}, fld)
  {
    hide PrefixLen, KeyRules;
    forall k ensures (bag + Stored(r, fld, PrefixLen(r.mask, fld)))[k] == |KeyRules(done + {r}, fld, k)| { KeysGain(done, fld, r, k); }
  }

  /** Rules without a prefix on the field do not count. */
  lemma CountNone(bag: multiset<Bits>, done: set<Rule>, fld: Field, more: set<Rule>)
    requires Counted(bag, done, fld) && forall r :: r in more ==> PrefixLen(r.mask, fld) == 0
    ensures Counted(bag, done + more, fld)
  {
    hide PrefixLen;
    forall k ensures KeyRules(done + more, fld, k) == KeyRules(done, fld, k) {}
  }

  function SetOf(l: seq<Rule>): set<Rule> {
    set r | r in l
  }

  /** Stores the prefixes of one list of rules. */
  method FillFromList(bank: Bank, j: nat, l: seq<Rule>, plen: nat, ghost mask: FlowBits, ghost done: set<Rule>)
    requires bank.Valid() && j < |bank.fields| && ListOk(l, mask) && plen == PrefixLen(mask, bank.fields[j]) > 0
    requires (forall r :: r in l ==> r !in done) && |bank.bags| == |bank.fields| && Counted(bank.bags[j], done, bank.fields[j])
    modifies bank`nodes, bank`bags, bank`views, bank.nodes
    ensures bank.Valid() && fresh(bank.nodes - old(bank.nodes)) && bank.fields == old(bank.fields)
    ensures |bank.bags| == |old(bank.bags)| && bank.bags == old(bank.bags)[j := bank.bags[j]]
    ensures Counted(bank.bags[j], done + SetOf(l), bank.fields[j])
  {
    hide Bank.Valid, PrefixLen, Counted, Stored;
    assert done + SetOf(l[..0]) == done;
    for i := 0 to |l|
      invariant bank.Valid() && fresh(bank.nodes - old(bank.nodes)) && bank.fields == old(bank.fields)
      invariant |bank.bags| == |old(bank.bags)| && bank.bags == old(bank.bags)[j := bank.bags[j]]
      invariant Counted(bank.bags[j], done + SetOf(l[..i]), bank.fields[j])
    {
      NextRule(l, i, mask);
      CountOne(bank.bags[j], done + SetOf(l[..i]), bank.fields[j], l[i]);
      bank.InsertAt(j, l[i], plen);
      assert done + SetOf(l[..i]) + {l[i]} == done + SetOf(l[..i + 1]);
    }
    assert l[..|l|] == l;
  }

  lemma NextRule(l: seq<Rule>, i: nat, mask: FlowBits)
    requires ListOk(l, mask) && i < |l|
    ensures l[i] !in l[..i] && l[i] in l && l[i].mask == mask
    ensures SetOf(l[..i + 1]) == SetOf(l[..i]) + {l[i]}
  {
    Once(l, i);
    assert l[..i + 1] == l[..i] + [l[i]];
  }

  /** Stores the prefixes of one subtable's rules. */
  method FillFromSubtable(bank: Bank, j: nat, s: Subtable, plen: nat, ghost done: set<Rule>)
    requires bank.Valid() && j < |bank.fields| && ListsOk(s) && plen == PrefixLen(s.mask, bank.fields[j]) > 0
    requires RuleSet(s.rules) !! done && |bank.bags| == |bank.fields| && Counted(bank.bags[j], done, bank.fields[j])
    modifies bank`nodes, bank`bags, bank`views, bank.nodes
    ensures bank.Valid() && fresh(bank.nodes - old(bank.nodes)) && bank.fields == old(bank.fields)
    ensures |bank.bags| == |old(bank.bags)| && bank.bags == old(bank.bags)[j := bank.bags[j]]
    ensures Counted(bank.bags[j], done + RuleSet(s.rules), bank.fields[j])
  {
    hide Bank.Valid, PrefixLen, Counted, RuleSet, ListOk;
    NoLists(s, done);
    for k := 0 to |s.rules|
      invariant bank.Valid() && fresh(bank.nodes - old(bank.nodes)) && bank.fields == old(bank.fields)
      invariant |bank.bags| == |old(bank.bags)| && bank.bags == old(bank.bags)[j := bank.bags[j]]
      invariant Counted(bank.bags[j], done + RuleSet(s.rules[..k]), bank.fields[j])
    {
      OneMoreList(s, k, done);
      FillFromList(bank, j, s.rules[k], plen, s.mask, done + RuleSet(s.rules[..k]));
    }
    assert s.rules[..|s.rules|] == s.rules;
  }

  lemma NoLists(s: Subtable, done: set<Rule>)
    ensures done + RuleSet(s.rules[..0]) == done
  {
  }

  lemma OneMoreList(s: Subtable, k: nat, done: set<Rule>)
    requires ListsOk(s) && k < |s.rules| && RuleSet(s.rules) !! done
    ensures ListOk(s.rules[k], s.mask) && forall r :: r in s.rules[k] ==> r !in done + RuleSet(s.rules[..k])
    ensures done + RuleSet(s.rules[..k]) + SetOf(s.rules[k]) == done + RuleSet(s.rules[..k + 1])
  {
    hide ListOk;
    NextList(s, k);
    assert forall r :: r in s.rules[k] ==> r in RuleSet(s.rules);
  }

  /** What the loop of `trie_init` over the subtables does with one of them. */
  lemma NextSubtable(h: Hasher, segments: seq<nat>, fields: seq<Field>, subs: seq<Subtable>, all: set<Rule>, i: nat)
    requires TablesOk(h, segments, fields, multiset(subs), all) && i < |subs|
    ensures ListsOk(subs[i]) && RuleSet(subs[i].rules) !! RulesTo(subs, i)
    ensures RulesTo(subs, i) + RuleSet(subs[i].rules) == RulesTo(subs, i + 1)
    ensures forall r :: r in RuleSet(subs[i].rules) ==> r.mask == subs[i].mask
  {
    hide RuleSet, TablesOk, SubCore;
    MasksDiffer(h, segments, fields, subs, all);
    forall k | 0 <= k <= i ensures SubExact(h, segments, fields, subs[k]) && forall r :: r in RuleSet(subs[k].rules) ==> r.mask == subs[k].mask {
      OneOf(h, segments, fields, subs, all, k);
    }
    CoreLists(h, segments, fields, subs[i]);
  }

  lemma CoreLists(h: Hasher, segments: seq<nat>, fields: seq<Field>, s: Subtable)
    requires SubCore(h, segments, fields, s)
    ensures ListsOk(s)
  {
  }

  /** What the loop of `trie_init` does with subtable 'i'. */
  method RefillOne(bank: Bank, j: nat, subs: seq<Subtable>, i: nat,
                   ghost h: Hasher, ghost segments: seq<nat>, ghost fields: seq<Field>, ghost all: set<Rule>) returns (t: Subtable)
    requires bank.Valid() && j <= |fields| && j < |bank.fields| && bank.fields == Put(fields, j, bank.fields[j])
    requires TablesOk(h, segments, fields, multiset(subs), all) && i < |subs|
    requires |bank.bags| == |bank.fields| && Counted(bank.bags[j], RulesTo(subs, i), bank.fields[j])
    modifies bank`nodes, bank`bags, bank`views, bank.nodes
    ensures bank.Valid() && fresh(bank.nodes - old(bank.nodes)) && bank.fields == old(bank.fields)
    ensures |bank.bags| == |old(bank.bags)| && bank.bags == old(bank.bags)[j := bank.bags[j]]
    ensures Counted(bank.bags[j], RulesTo(subs, i + 1), bank.fields[j])
    ensures Measured(subs[i], t, bank.fields)
  {
    hide Bank.Valid, PrefixLen, Counted, RuleSet, TablesOk, SubCore, Measured, RulesTo, Put;
    var s := subs[i];
    var plen := GetPrefixLen(s.mask, bank.fields[j]);
    OneOf(h, segments, fields, subs, all, i);
    Remeasure(h, segments, fields, bank.fields[j], j, s);
    t := s.(plens := Put(s.plens, j, plen));
    NextSubtable(h, segments, fields, subs, all, i);
    if plen > 0 {
      FillFromSubtable(bank, j, s, plen, RulesTo(subs, i));
    } else {
      CountNone(bank.bags[j], RulesTo(subs, i), bank.fields[j], RuleSet(s.rules));
    }
  }

  /** `trie_init`: new prefix lengths for trie 'j', and its contents. */
  method Refill(bank: Bank, j: nat, subs: seq<Subtable>,
                ghost h: Hasher, ghost segments: seq<nat>, ghost fields: seq<Field>, ghost all: set<Rule>) returns (subs': seq<Subtable>)
    requires bank.Valid() && j <= |fields| && j < |bank.fields| && bank.fields == Put(fields, j, bank.fields[j])
    requires |bank.bags| == |bank.fields| && bank.bags[j] == multiset{}
    requires TablesOk(h, segments, fields, multiset(subs), all)
    modifies bank`nodes, bank`bags, bank`views, bank.nodes
    ensures bank.Valid() && fresh(bank.nodes - old(bank.nodes)) && bank.fields == old(bank.fields)
    ensures |bank.bags| == |old(bank.bags)| && bank.bags == old(bank.bags)[j := bank.bags[j]]
    ensures Counted(bank.bags[j], all, bank.fields[j])
    ensures |subs'| == |subs| && forall i :: 0 <= i < |subs| ==> Measured(subs[i], subs'[i], bank.fields)
  {
    hide Bank.Valid, Counted, TablesOk, Measured, RulesTo, Put;
    subs' := [];
    AllRules(h, segments, fields, subs, all);
    CountedNone(bank.fields[j]);
    for i := 0 to |subs|
      invariant bank.Valid() && fresh(bank.nodes - old(bank.nodes)) && bank.fields == old(bank.fields)
      invariant |bank.bags| == |old(bank.bags)| && bank.bags == old(bank.bags)[j := bank.bags[j]]
      invariant Counted(bank.bags[j], RulesTo(subs, i), bank.fields[j])
      invariant |subs'| == i && forall k :: 0 <= k < i ==> Measured(subs[k], subs'[k], bank.fields)
    {
      var t := RefillOne(bank, j, subs, i, h, segments, fields, all);
      subs' := subs' + [t];
    }
  }

  lemma CountedNone(fld: Field)
    ensures Counted(multiset{}, {}, fld)
  {
    hide PrefixLen;
    forall k ensures KeyRules({}, fld, k) == {} {}
  }

  lemma Remeasure(h: Hasher, segments: seq<nat>, fields: seq<Field>, fld: Field, j: nat, s: Subtable)
    requires SubExact(h, segments, fields, s) && j <= |fields|
    ensures |s.plens| == |fields|
    ensures Measured(s, s.(plens := Put(s.plens, j, PrefixLen(s.mask, fld))), Put(fields, j, fld))
  {
    hide PrefixLen, ListsOk, Indexed, MaxExact, StagesUseful, TagOf, RuleSet;
  }

  /** Prefixes are counted for the new field as they were for the others. */
  lemma BagsPut(fields: seq<Field>, bags: seq<multiset<Bits>>, all: set<Rule>, j: nat, fld: Field, bag: multiset<Bits>)
    requires BagsOk(fields, bags, all) && j <= |fields| && Counted(bag, all, fld)
    ensures BagsOk(Put(fields, j, fld), Put(bags, j, bag), all)
  {
    hide KeyRules;
  }
}
