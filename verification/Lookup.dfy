/**
 Lookup in one subtable of the classifier, as a function of the subtable's contents:
 staged indices, trie skips and the final hash lookup, with the wildcard mask that
 each of them leaves behind.
 */
module Lookup {
  import opened Bits
  import opened Flow
  import T = TrieModel

  const UINT_MAX: nat := 0xffff_ffff

  // ----- prefix tries

  datatype FieldData = Field(id: nat, ofs: nat, bits: nat, prereq: FlowBits -> bool)

  /** A match field usable in a trie: whole words of the flow, and when it is present. */
  type Field = fld: FieldData | 0 < fld.bits && fld.bits % 32 == 0 && 32 * fld.ofs + fld.bits <= FLOW_BITS
    witness Field(0, 0, 32, f => true)

  function FieldBits(f: FlowBits, fld: Field): (v: Bits)
    ensures |v| == fld.bits
  {
    f[32 * fld.ofs..32 * fld.ofs + fld.bits]
  }

  /** 'mask' fixes the first 'n' bits of the field. */
  predicate PrefixSet(mask: FlowBits, fld: Field, n: nat) {
    n <= fld.bits && forall i :: 32 * fld.ofs <= i < 32 * fld.ofs + n ==> mask[i]
  }

  function SetPrefix(wc: FlowBits, fld: Field, n: nat): (r: FlowBits)
    ensures forall i :: 0 <= i < FLOW_BITS ==> r[i] == (wc[i] || 32 * fld.ofs <= i < 32 * fld.ofs + n)
  {
    seq(FLOW_BITS, i requires 0 <= i < FLOW_BITS => wc[i] || 32 * fld.ofs <= i < 32 * fld.ofs + n)
  }

  datatype TrieData = Trie(field: Field, tree: T.Tree)

  type Trie = t: TrieData | T.Shape(t.tree, t.field.bits) witness Trie(Field(0, 0, 32, f => true), T.Nil)

  /** `trie_lookup`: the longest prefix that could match, and the bits that decide it. */
  function TrieResult(t: Trie, f: FlowBits): (r: (nat, nat)) {
    if t.field.prereq(f) then T.Lookup(t.tree, FieldBits(f, t.field)) else (UINT_MAX, 0)
  }

  // ----- subtables

  /** A subtable: lists of rules that differ only in priority, and what speeds lookup up. */
  datatype Subtable = Subtable(
    mask: FlowBits,
    rules: seq<seq<Rule>>,
    maxPriority: nat,
    maxCount: nat,
    tag: set<nat>,
    ofs: seq<nat>,
    indices: seq<map<nat, seq<Rule>>>,
    plens: seq<nat>)

  predicate Has(s: Subtable, r: Rule) {
    exists k :: 0 <= k < |s.rules| && r in s.rules[k]
  }

  predicate Descending(l: seq<Rule>) {
    forall a, b :: 0 <= a < b < |l| ==> l[a].priority > l[b].priority
  }

  /** A list holds one match at strictly descending priorities. */
  ghost predicate ListOk(l: seq<Rule>, mask: FlowBits) {
    l != [] && Descending(l) && forall r :: r in l ==> r.mask == mask && r.flow == l[0].flow
  }

  /** No two lists hold the same match. */
  ghost predicate ListsOk(s: Subtable) {
    && (forall k :: 0 <= k < |s.rules| ==> ListOk(s.rules[k], s.mask))
    && (forall k, l :: 0 <= k < l < |s.rules| ==> s.rules[k][0].flow != s.rules[l][0].flow)
  }

  /** Index 'i' files every rule under the hash of its first 'ofs[i]' words. */
  ghost predicate IndicesOk(h: Hasher, s: Subtable) {
    && |s.indices| == |s.ofs|
    && (forall i :: 0 <= i < |s.ofs| ==> s.ofs[i] <= FLOW_U32S)
    && (forall i, j :: 0 <= i < j < |s.ofs| ==> s.ofs[i] <= s.ofs[j])
    && (forall i, r :: 0 <= i < |s.ofs| && Has(s, r) ==> Filed(h, s, i, r))
    && (forall i, x :: 0 <= i < |s.ofs| && x in s.indices[i] ==> s.indices[i][x] != [])
    && (forall i, x, r :: 0 <= i < |s.ofs| && x in s.indices[i] && r in s.indices[i][x] ==> Has(s, r) && StageHash(h, r.flow, s.mask, s.ofs[i]) == x)
  }

  ghost predicate Filed(h: Hasher, s: Subtable, i: nat, r: Rule)
    requires i < |s.indices| && i < |s.ofs| && s.ofs[i] <= FLOW_U32S
  {
    var x := StageHash(h, r.flow, s.mask, s.ofs[i]);
    x in s.indices[i] && r in s.indices[i][x]
  }

  /** The tries hold the prefix of every rule in a subtable with a prefix mask on their field. */
  ghost predicate TriesCover(tries: seq<Trie>, s: Subtable) {
    && |s.plens| == |tries|
    && (forall j :: 0 <= j < |tries| ==> s.plens[j] <= UINT_MAX && PrefixSet(s.mask, tries[j].field, s.plens[j]))
    && (forall j, r :: 0 <= j < |tries| && s.plens[j] > 0 && Has(s, r) ==>
          T.Count(tries[j].tree, FieldBits(r.flow, tries[j].field)[..s.plens[j]]) > 0)
  }

  // ----- the lookup

  /** `find_match` without the hash: the first list that matches. */
  function FirstMatch(s: Subtable, f: FlowBits, k: nat): (r: Option<Rule>)
    requires ListsOk(s)
    decreases |s.rules| - k
  {
    if k >= |s.rules| then None
    else if Matches(s.rules[k][0], f) then Some(s.rules[k][0])
    else FirstMatch(s, f, k + 1)
  }

  /** `find_match`: the first list with this hash that matches. */
  function FindMatch(h: Hasher, s: Subtable, f: FlowBits, hash: nat, k: nat): (r: Option<Rule>)
    requires ListsOk(s)
    decreases |s.rules| - k
  {
    if k >= |s.rules| then None
    else if StageHash(h, s.rules[k][0].flow, s.mask, FLOW_U32S) == hash && Matches(s.rules[k][0], f) then Some(s.rules[k][0])
    else FindMatch(h, s, f, hash, k + 1)
  }

  /** `check_tries`: whether the rest of the subtable can be skipped, and the mask if so. */
  function CheckTries(tries: seq<Trie>, plens: seq<nat>, start: nat, end: nat, f: FlowBits, wc: FlowBits, j: nat): (r: (bool, FlowBits))
    requires |plens| == |tries|
    decreases |tries| - j
  {
    if j >= |tries| then (false, wc) else
      var t, plen := tries[j], plens[j];
      if plen > 0 && start <= t.field.ofs < end && plen > TrieResult(t, f).0 then
        var maskbits := TrieResult(t, f).1;
        if PrefixSet(wc, t.field, maskbits) then (true, wc)
        else if maskbits <= plen then (true, SetPrefix(wc, t.field, maskbits))
        else CheckTries(tries, plens, start, end, f, wc, j + 1)
      else CheckTries(tries, plens, start, end, f, wc, j + 1)
  }

  datatype Found = Found(rule: Option<Rule>, wc: FlowBits)

  /**
   `find_match_wc` from stage 'i' on, with the words before 'start' done.  Once a
   single candidate has been tried in vain, 'narrowed' is set and only the mask is
   still sought.
   */
  function FindFrom(h: Hasher, s: Subtable, tries: seq<Trie>, f: FlowBits, i: nat, start: nat, narrowed: bool, wc: FlowBits): (r: Found)
    requires ListsOk(s) && IndicesOk(h, s) && TriesCover(tries, s)
    requires i <= |s.ofs| && start <= FLOW_U32S
    decreases |s.ofs| - i, 1
  {
    var end := if i < |s.ofs| then s.ofs[i] else FLOW_U32S;
    var (skip, wc') := CheckTries(tries, s.plens, start, end, f, wc, 0);
    if skip then Found(None, Or(wc', Range(s.mask, 0, start)))
    else if i < |s.ofs| then Stage(h, s, tries, f, i, narrowed, wc')
    else Found(if narrowed then None else FindMatch(h, s, f, StageHash(h, f, s.mask, FLOW_U32S), 0), Or(wc', s.mask))
  }

  /** Stage 'i' of `find_match_wc` after its trie check: the index lookup. */
  function Stage(h: Hasher, s: Subtable, tries: seq<Trie>, f: FlowBits, i: nat, narrowed: bool, wc: FlowBits): (r: Found)
    requires ListsOk(s) && IndicesOk(h, s) && TriesCover(tries, s) && i < |s.ofs|
    decreases |s.ofs| - i, 0
  {
    var x := StageHash(h, f, s.mask, s.ofs[i]);
    if x !in s.indices[i] then Found(None, Or(wc, Range(s.mask, 0, s.ofs[i])))
    else
      var single := |s.indices[i][x]| == 1 && !narrowed;
      if single && Matches(s.indices[i][x][0], f) then Found(Some(s.indices[i][x][0]), Or(wc, s.mask))
      else FindFrom(h, s, tries, f, i + 1, s.ofs[i], narrowed || single, wc)
  }

  // ----- what the lookup finds

  ghost predicate NoneMatches(s: Subtable, f: FlowBits) {
    forall r :: Has(s, r) ==> !Matches(r, f)
  }

  /** Rules of one subtable that match the same flow match the same flows. */
  lemma SameFlow(a: Rule, b: Rule, f: FlowBits)
    requires a.mask == b.mask && Matches(a, f) && Matches(b, f)
    ensures a.flow == b.flow
  {
    assert forall i :: 0 <= i < FLOW_BITS ==> a.flow[i] == b.flow[i];
  }

  lemma {:induction false} FirstMatchSpec(s: Subtable, f: FlowBits, k: nat)
    requires ListsOk(s) && k <= |s.rules|
    ensures match FirstMatch(s, f, k)
            case None => forall l :: k <= l < |s.rules| ==> !Matches(s.rules[l][0], f)
            case Some(r) => exists l :: k <= l < |s.rules| && r == s.rules[l][0] && Matches(r, f)
    decreases |s.rules| - k
  {
    hide ListsOk, Matches;
    HeadsExist(s);
    if k < |s.rules| { FirstMatchSpec(s, f, k + 1); }
  }

  lemma HeadsExist(s: Subtable)
    requires ListsOk(s)
    ensures forall k :: 0 <= k < |s.rules| ==> |s.rules[k]| > 0
  {
  }

  /** A list whose head matches is the one that lookup finds. */
  lemma FirstMatchHead(s: Subtable, f: FlowBits, r: Rule)
    requires ListsOk(s) && Has(s, r) && Matches(r, f)
    ensures FirstMatch(s, f, 0).Some? && FirstMatch(s, f, 0).value.flow == r.flow
    ensures Has(s, FirstMatch(s, f, 0).value) && Matches(FirstMatch(s, f, 0).value, f)
    ensures FirstMatch(s, f, 0).value.priority >= r.priority
    ensures forall k :: 0 <= k < |s.rules| && r in s.rules[k] ==> FirstMatch(s, f, 0) == Some(s.rules[k][0])
  {
    hide AgreeOn, Within;
    FirstMatchSpec(s, f, 0);
    var k :| 0 <= k < |s.rules| && r in s.rules[k];
    assert s.rules[k][0] in s.rules[k] && s.rules[k][0].flow == r.flow && s.rules[k][0].mask == r.mask;
    var found := FirstMatch(s, f, 0).value;
    var l :| 0 <= l < |s.rules| && found == s.rules[l][0];
    assert found in s.rules[l];
    SameFlow(found, r, f);
    assert k == l;
    var a :| 0 <= a < |s.rules[k]| && s.rules[k][a] == r;
  }

  lemma FirstMatchNone(s: Subtable, f: FlowBits)
    requires ListsOk(s)
    ensures FirstMatch(s, f, 0).None? <==> NoneMatches(s, f)
    ensures FirstMatch(s, f, 0).Some? ==> Has(s, FirstMatch(s, f, 0).value) && Matches(FirstMatch(s, f, 0).value, f)
  {
    hide FirstMatch, Matches, ListsOk;
    HeadsExist(s);
    FirstMatchSpec(s, f, 0);
    forall r | Has(s, r) && Matches(r, f) ensures FirstMatch(s, f, 0).Some? { FirstMatchHead(s, f, r); }
    if FirstMatch(s, f, 0).Some? {
      var l :| 0 <= l < |s.rules| && FirstMatch(s, f, 0).value == s.rules[l][0] && Matches(s.rules[l][0], f);
      assert s.rules[l][0] in s.rules[l];
    }
  }

  lemma {:induction false} FirstMatchSame(s: Subtable, f: FlowBits, g: FlowBits, k: nat)
    requires ListsOk(s) && k <= |s.rules| && AgreeOn(s.mask, f, g)
    ensures FirstMatch(s, f, k) == FirstMatch(s, g, k)
    decreases |s.rules| - k
  {
    hide AgreeOn;
    if k < |s.rules| {
      assert s.rules[k][0] in s.rules[k];
      AgreeTrans(s.mask, s.rules[k][0].flow, f, g);
      FirstMatchSame(s, f, g, k + 1);
    }
  }

  /** `find_match` with the flow's own hash loses nothing to the hash. */
  lemma {:induction false} FindMatchIsFirst(h: Hasher, s: Subtable, f: FlowBits, k: nat)
    requires ListsOk(s) && k <= |s.rules|
    ensures FindMatch(h, s, f, StageHash(h, f, s.mask, FLOW_U32S), k) == FirstMatch(s, f, k)
    decreases |s.rules| - k
  {
    hide AgreeOn, StageHash;
    if k < |s.rules| {
      assert s.rules[k][0] in s.rules[k];
      FindMatchIsFirst(h, s, f, k + 1);
      if Matches(s.rules[k][0], f) { MatchHash(h, s.rules[k][0], f, FLOW_U32S); }
    }
  }

  /** A rule and a flow that it matches hash alike at every stage. */
  lemma MatchHash(h: Hasher, r: Rule, f: FlowBits, end: nat)
    requires Matches(r, f) && end <= FLOW_U32S
    ensures StageHash(h, r.flow, r.mask, end) == StageHash(h, f, r.mask, end)
  {
    hide StageHash, AgreeOn, Range;
    RangeWithin(r.mask, 0, end);
    AgreeLess(Range(r.mask, 0, end), r.mask, r.flow, f);
    StageHashSame(h, r.flow, f, r.mask, end);
  }

  // ----- trie skips

  /** Flows that agree where 'mask' fixes a field's first bits have the same prefix there. */
  lemma SamePrefixBits(mask: FlowBits, fld: Field, n: nat, f: FlowBits, g: FlowBits)
    requires PrefixSet(mask, fld, n) && AgreeOn(mask, f, g)
    ensures SameUpTo(FieldBits(f, fld), FieldBits(g, fld), n)
    ensures FieldBits(f, fld)[..n] == FieldBits(g, fld)[..n]
  {
    forall i | 0 <= i < n ensures FieldBits(f, fld)[i] == FieldBits(g, fld)[i] {
      assert mask[32 * fld.ofs + i];
    }
  }

  /** If the trie says that no prefix this long matches 'g', no rule of the subtable does. */
  lemma TrieExcludes(tries: seq<Trie>, s: Subtable, j: nat, g: FlowBits)
    requires ListsOk(s) && TriesCover(tries, s) && j < |tries|
    requires s.plens[j] > T.Lookup(tries[j].tree, FieldBits(g, tries[j].field)).0
    ensures NoneMatches(s, g)
  {
    hide T.Lookup, T.Count, T.Shape, AgreeOn, PrefixSet, FieldBits;
    var t, p := tries[j], s.plens[j];
    var v := FieldBits(g, t.field);
    T.LookupLongest(t.tree, v);
    forall r | Has(s, r) ensures !Matches(r, g) {
      if Matches(r, g) {
        HasMask(s, r);
        SamePrefixBits(s.mask, t.field, p, r.flow, g);
      }
    }
  }

  lemma HasMask(s: Subtable, r: Rule)
    requires ListsOk(s) && Has(s, r)
    ensures r.mask == s.mask
  {
  }

  /** The lookup result of a trie depends on no more than its deciding bits. */
  lemma TrieStable(t: Trie, mask: FlowBits, f: FlowBits, g: FlowBits)
    requires PrefixSet(mask, t.field, T.Lookup(t.tree, FieldBits(f, t.field)).1) && AgreeOn(mask, f, g)
    ensures T.Lookup(t.tree, FieldBits(g, t.field)) == T.Lookup(t.tree, FieldBits(f, t.field))
  {
    hide T.Lookup, T.Shape, AgreeOn, PrefixSet, FieldBits;
    var c := T.Lookup(t.tree, FieldBits(f, t.field)).1;
    SamePrefixBits(mask, t.field, c, f, g);
    T.LookupStable(t.tree, FieldBits(f, t.field), FieldBits(g, t.field));
  }

  /** What a skip says about every flow that the mask cannot tell from 'f'. */
  lemma {:induction false} SkipExcludes(tries: seq<Trie>, s: Subtable, start: nat, end: nat, f: FlowBits, wc: FlowBits, j: nat, g: FlowBits)
    requires ListsOk(s) && TriesCover(tries, s)
    ensures var (skip, wc') := CheckTries(tries, s.plens, start, end, f, wc, j);
            && Within(wc, wc')
            && (!skip ==> wc' == wc)
            && (skip && AgreeOn(wc', f, g) ==> NoneMatches(s, g))
    decreases |tries| - j
  {
    hide T.Lookup, T.Count, T.Shape, AgreeOn, FieldBits, NoneMatches, ListsOk;
    if j < |tries| {
      var t, p := tries[j], s.plens[j];
      var (skip, wc') := CheckTries(tries, s.plens, start, end, f, wc, j);
      SkipExcludes(tries, s, start, end, f, wc, j + 1, g);
      T.LookupStable(t.tree, FieldBits(f, t.field), FieldBits(f, t.field));
      if p > 0 && start <= t.field.ofs < end && p > TrieResult(t, f).0 && skip && AgreeOn(wc', f, g) && PrefixSet(wc', t.field, TrieResult(t, f).1) {
        TrieStable(t, wc', f, g);
        TrieExcludes(tries, s, j, g);
      }
    }
  }

  // ----- the whole of `find_match_wc`

  /** 'f' and every flow that 'wc' cannot tell from it find the same rule in 's'. */
  ghost predicate SoundFor(s: Subtable, f: FlowBits, wc: FlowBits)
    requires ListsOk(s)
  {
    forall g :: AgreeOn(wc, f, g) ==> FirstMatch(s, g, 0) == FirstMatch(s, f, 0)
  }

  lemma FullMaskSound(s: Subtable, f: FlowBits, wc: FlowBits)
    requires ListsOk(s)
    ensures SoundFor(s, f, Or(wc, s.mask))
  {
    hide Or, AgreeOn, Within, FirstMatch, ListsOk;
    FoldWithin(wc, s.mask);
    forall g | AgreeOn(Or(wc, s.mask), f, g) ensures FirstMatch(s, g, 0) == FirstMatch(s, f, 0) {
      AgreeLess(s.mask, Or(wc, s.mask), f, g);
      FirstMatchSame(s, f, g, 0);
    }
  }

  lemma SkipSound(tries: seq<Trie>, s: Subtable, start: nat, end: nat, f: FlowBits, wc: FlowBits)
    requires ListsOk(s) && TriesCover(tries, s)
    ensures var (skip, wc') := CheckTries(tries, s.plens, start, end, f, wc, 0);
            && Within(wc, wc')
            && (skip ==> NoneMatches(s, f) && SoundFor(s, f, Or(wc', Range(s.mask, 0, start))))
  {
    hide Or, AgreeOn, Within, FirstMatch, CheckTries, ListsOk, TriesCover, NoneMatches, Range;
    PlensMatch(tries, s);
    var (skip, wc') := CheckTries(tries, s.plens, start, end, f, wc, 0);
    var all := Or(wc', Range(s.mask, 0, start));
    SkipExcludes(tries, s, start, end, f, wc, 0, f);
    SelfAgrees(wc', f);
    FoldWithin(wc', Range(s.mask, 0, start));
    FirstMatchNone(s, f);
    forall g | skip && AgreeOn(all, f, g) ensures FirstMatch(s, g, 0) == FirstMatch(s, f, 0) {
      AgreeLess(wc', all, f, g);
      SkipExcludes(tries, s, start, end, f, wc, 0, g);
      FirstMatchNone(s, g);
    }
  }

  lemma SelfAgrees(mask: FlowBits, f: FlowBits)
    ensures AgreeOn(mask, f, f)
  {
  }

  /** No index entry at a stage: no rule agrees with the flow on the words hashed so far. */
  lemma MissExcludes(h: Hasher, s: Subtable, i: nat, f: FlowBits, g: FlowBits)
    requires ListsOk(s) && IndicesOk(h, s) && i < |s.ofs|
    requires StageHash(h, f, s.mask, s.ofs[i]) !in s.indices[i] && AgreeOn(Range(s.mask, 0, s.ofs[i]), f, g)
    ensures NoneMatches(s, g)
  {
    hide StageHash, AgreeOn, Range, ListsOk;
    StageHashSame(h, f, g, s.mask, s.ofs[i]);
    forall r | Has(s, r) ensures !Matches(r, g) {
      HasMask(s, r);
      assert Filed(h, s, i, r);
      if Matches(r, g) { MatchHash(h, r, g, s.ofs[i]); }
    }
  }

  lemma MissSound(h: Hasher, s: Subtable, i: nat, f: FlowBits, wc: FlowBits)
    requires ListsOk(s) && IndicesOk(h, s) && i < |s.ofs|
    requires StageHash(h, f, s.mask, s.ofs[i]) !in s.indices[i]
    ensures NoneMatches(s, f) && SoundFor(s, f, Or(wc, Range(s.mask, 0, s.ofs[i])))
  {
    hide StageHash, AgreeOn, Range, ListsOk, IndicesOk, Or, Within, FirstMatch, NoneMatches;
    var part := Range(s.mask, 0, s.ofs[i]);
    SelfAgrees(part, f);
    MissExcludes(h, s, i, f, f);
    FoldWithin(wc, part);
    FirstMatchNone(s, f);
    forall g | AgreeOn(Or(wc, part), f, g) ensures FirstMatch(s, g, 0) == FirstMatch(s, f, 0) {
      AgreeLess(part, Or(wc, part), f, g);
      MissExcludes(h, s, i, f, g);
      FirstMatchNone(s, g);
    }
  }

  /** A stage with a single candidate decides the match: it is the rule found, or there is none. */
  lemma SingleDecides(h: Hasher, s: Subtable, i: nat, f: FlowBits)
    requires ListsOk(s) && IndicesOk(h, s) && i < |s.ofs|
    requires var x := StageHash(h, f, s.mask, s.ofs[i]); x in s.indices[i] && |s.indices[i][x]| == 1
    ensures var r := s.indices[i][StageHash(h, f, s.mask, s.ofs[i])][0];
            if Matches(r, f) then FirstMatch(s, f, 0) == Some(r) else NoneMatches(s, f)
  {
    hide StageHash, Matches, ListsOk, FirstMatch;
    var x := StageHash(h, f, s.mask, s.ofs[i]);
    var only := s.indices[i][x][0];
    assert only in s.indices[i][x] && Has(s, only);
    forall r | Has(s, r) && Matches(r, f) ensures r == only {
      HasMask(s, r);
      assert Filed(h, s, i, r);
      MatchHash(h, r, f, s.ofs[i]);
    }
    if Matches(only, f) { FirstMatchHead(s, f, only); }
  }

  ghost predicate SoundResult(s: Subtable, f: FlowBits, wc: FlowBits, r: Found)
    requires ListsOk(s)
  {
    r.rule == FirstMatch(s, f, 0) && Within(wc, r.wc) && SoundFor(s, f, r.wc)
  }

  /** `find_match_wc` finds what a plain search finds, and leaves a mask that is safe for it. */
  lemma {:induction false} FindIsSound(h: Hasher, s: Subtable, tries: seq<Trie>, f: FlowBits, i: nat, start: nat, narrowed: bool, wc: FlowBits)
    requires ListsOk(s) && IndicesOk(h, s) && TriesCover(tries, s) && i <= |s.ofs| && start <= FLOW_U32S
    requires narrowed ==> NoneMatches(s, f)
    ensures SoundResult(s, f, wc, FindFrom(h, s, tries, f, i, start, narrowed, wc))
    decreases |s.ofs| - i, 1
  {
    hide StageHash, Matches, ListsOk, TriesCover, FirstMatch, FindMatch, CheckTries, NoneMatches, SoundFor, Or, Range, Within, IndicesOk, Stage;
    IndexEnds(h, s, i);
    PlensMatch(tries, s);
    var end := if i < |s.ofs| then s.ofs[i] else FLOW_U32S;
    var (skip, wc') := CheckTries(tries, s.plens, start, end, f, wc, 0);
    FirstMatchNone(s, f);
    SkipSound(tries, s, start, end, f, wc);
    if skip {
      FoldWithin(wc', Range(s.mask, 0, start));
      WithinTrans(wc, wc', Or(wc', Range(s.mask, 0, start)));
    } else if i < |s.ofs| {
      StageIsSound(h, s, tries, f, i, narrowed, wc');
      WithinTrans(wc, wc', Stage(h, s, tries, f, i, narrowed, wc').wc);
    } else {
      FindMatchIsFirst(h, s, f, 0);
      FoldWithin(wc', s.mask);
      FullMaskSound(s, f, wc');
      WithinTrans(wc, wc', Or(wc', s.mask));
    }
  }

  lemma {:induction false} StageIsSound(h: Hasher, s: Subtable, tries: seq<Trie>, f: FlowBits, i: nat, narrowed: bool, wc: FlowBits)
    requires ListsOk(s) && IndicesOk(h, s) && TriesCover(tries, s) && i < |s.ofs|
    requires narrowed ==> NoneMatches(s, f)
    ensures SoundResult(s, f, wc, Stage(h, s, tries, f, i, narrowed, wc))
    decreases |s.ofs| - i, 0
  {
    hide StageHash, Matches, ListsOk, TriesCover, FirstMatch, NoneMatches, SoundFor, Or, Range, Within, IndicesOk, FindFrom;
    IndexEnds(h, s, i);
    var x := StageHash(h, f, s.mask, s.ofs[i]);
    FirstMatchNone(s, f);
    if x !in s.indices[i] {
      MissSound(h, s, i, f, wc);
      FoldWithin(wc, Range(s.mask, 0, s.ofs[i]));
    } else {
      var single := |s.indices[i][x]| == 1 && !narrowed;
      if single { SingleDecides(h, s, i, f); }
      if single && Matches(s.indices[i][x][0], f) {
        FoldWithin(wc, s.mask);
        FullMaskSound(s, f, wc);
      } else {
        FindIsSound(h, s, tries, f, i + 1, s.ofs[i], narrowed || single, wc);
      }
    }
  }

  lemma PlensMatch(tries: seq<Trie>, s: Subtable)
    requires TriesCover(tries, s)
    ensures |s.plens| == |tries|
  {
  }

  lemma IndexEnds(h: Hasher, s: Subtable, i: nat)
    requires IndicesOk(h, s)
    ensures |s.indices| == |s.ofs|
    ensures i < |s.ofs| ==> s.ofs[i] <= FLOW_U32S && s.ofs[i] in s.ofs
    ensures i + 1 < |s.ofs| ==> s.ofs[i] <= s.ofs[i + 1]
    ensures i < |s.ofs| ==> forall x :: x in s.indices[i] ==> |s.indices[i][x]| > 0
  {
  }

  lemma WithinTrans(a: FlowBits, b: FlowBits, c: FlowBits)
    requires Within(a, b) && Within(b, c)
    ensures Within(a, c)
  {
  }

  // ----- one flow's mask is every like flow's mask

  /** The trie's field lies within one stage of the subtable. */
  ghost predicate InOneStage(s: Subtable, fld: Field) {
    forall b :: b in s.ofs ==> b <= fld.ofs || fld.ofs + fld.bits / 32 <= b
  }

  /** At most one trie, its field within one stage, and present in both flows or in neither. */
  ghost predicate OneTrie(s: Subtable, tries: seq<Trie>, f: FlowBits, g: FlowBits) {
    && |tries| <= 1
    && forall t :: t in tries ==> InOneStage(s, t.field) && t.field.prereq(f) == t.field.prereq(g)
  }

  /** A skip for 'f' is a skip for every flow that the resulting mask cannot tell from it. */
  lemma SkipSame(tries: seq<Trie>, s: Subtable, start: nat, end: nat, f: FlowBits, g: FlowBits, wc: FlowBits)
    requires TriesCover(tries, s) && OneTrie(s, tries, f, g)
    requires CheckTries(tries, s.plens, start, end, f, wc, 0).0
    requires AgreeOn(CheckTries(tries, s.plens, start, end, f, wc, 0).1, f, g)
    ensures CheckTries(tries, s.plens, start, end, g, wc, 0) == CheckTries(tries, s.plens, start, end, f, wc, 0)
  {
    hide T.Lookup, T.Count, T.Shape, AgreeOn, FieldBits;
    var t := tries[0];
    var (skip, wc') := CheckTries(tries, s.plens, start, end, f, wc, 0);
    assert t in tries;
    T.LookupStable(t.tree, FieldBits(f, t.field), FieldBits(f, t.field));
    assert PrefixSet(wc', t.field, TrieResult(t, f).1);
    TrieStable(t, wc', f, g);
  }

  /** If the trie check lets 'f' pass, it lets pass every flow with the same bits under the stage's mask. */
  lemma PassSame(tries: seq<Trie>, s: Subtable, start: nat, end: nat, f: FlowBits, g: FlowBits, wc: FlowBits, seen: FlowBits)
    requires TriesCover(tries, s) && OneTrie(s, tries, f, g)
    requires !CheckTries(tries, s.plens, start, end, f, wc, 0).0
    requires AgreeOn(seen, f, g) && Within(wc, seen) && Within(Range(s.mask, 0, end), seen)
    requires end in s.ofs || end == FLOW_U32S
    ensures !CheckTries(tries, s.plens, start, end, g, wc, 0).0
  {
    hide T.Lookup, T.Count, T.Shape, AgreeOn, FieldBits, Within, Range;
    if |tries| == 1 && CheckTries(tries, s.plens, start, end, g, wc, 0).0 {
      var t := tries[0];
      assert t in tries;
      T.LookupStable(t.tree, FieldBits(g, t.field), FieldBits(g, t.field));
      FieldEnd(t.field);
      assert CheckTries(tries, s.plens, start, end, g, wc, 1) == (false, wc);
      assert CheckTries(tries, s.plens, start, end, f, wc, 1) == (false, wc);
      PrefixInRange(s.mask, t.field, s.plens[0], end, seen);
      PrefixLess(wc, seen, t.field, TrieResult(t, g).1);
      SymmetricAgree(seen, f, g);
      TrieStable(t, seen, g, f);
      assert false;
    }
  }

  lemma FieldEnd(fld: Field)
    ensures fld.ofs + fld.bits / 32 <= FLOW_U32S
  {
  }

  lemma SymmetricAgree(mask: FlowBits, f: FlowBits, g: FlowBits)
    requires AgreeOn(mask, f, g)
    ensures AgreeOn(mask, g, f)
  {
  }

  lemma PrefixLess(a: FlowBits, b: FlowBits, fld: Field, n: nat)
    requires Within(a, b)
    ensures PrefixSet(a, fld, n) ==> PrefixSet(b, fld, n)
  {
  }

  /** The masked prefix of a field that ends by word 'end' is part of the mask before it. */
  lemma PrefixInRange(mask: FlowBits, fld: Field, n: nat, end: nat, seen: FlowBits)
    requires PrefixSet(mask, fld, n) && fld.ofs + fld.bits / 32 <= end && Within(Range(mask, 0, end), seen)
    ensures forall m: nat :: m <= n ==> PrefixSet(seen, fld, m)
  {
    hide Range;
    forall i | 32 * fld.ofs <= i < 32 * fld.ofs + n ensures seen[i] { assert Range(mask, 0, end)[i]; }
  }

  /**
   With one trie, every flow that the final mask cannot tell from 'f' goes through
   the same stages and gets the same rule and the same mask.
   */
  lemma {:induction false} FindIsSame(h: Hasher, s: Subtable, tries: seq<Trie>, f: FlowBits, g: FlowBits, i: nat, start: nat, narrowed: bool, wc: FlowBits)
    requires ListsOk(s) && IndicesOk(h, s) && TriesCover(tries, s) && i <= |s.ofs| && start <= FLOW_U32S
    requires narrowed ==> NoneMatches(s, f)
    requires OneTrie(s, tries, f, g) && AgreeOn(FindFrom(h, s, tries, f, i, start, narrowed, wc).wc, f, g)
    ensures FindFrom(h, s, tries, g, i, start, narrowed, wc) == FindFrom(h, s, tries, f, i, start, narrowed, wc)
    decreases |s.ofs| - i, 1
  {
    hide StageHash, Matches, ListsOk, TriesCover, FirstMatch, FindMatch, CheckTries, Or, Range, Within, IndicesOk, Stage, AgreeOn, OneTrie;
    IndexEnds(h, s, i);
    PlensMatch(tries, s);
    var end := if i < |s.ofs| then s.ofs[i] else FLOW_U32S;
    var (skip, wc') := CheckTries(tries, s.plens, start, end, f, wc, 0);
    var r := FindFrom(h, s, tries, f, i, start, narrowed, wc);
    if skip {
      FoldWithin(wc', Range(s.mask, 0, start));
      AgreeLess(wc', r.wc, f, g);
      SkipSame(tries, s, start, end, f, g, wc);
    } else {
      SkipExcludes(tries, s, start, end, f, wc, 0, f);
      SkipExcludes(tries, s, start, end, g, wc, 0, g);
      if i < |s.ofs| {
        StageGrows(h, s, tries, f, i, narrowed, wc');
        PassSame(tries, s, start, end, f, g, wc, r.wc);
        StageIsSame(h, s, tries, f, g, i, narrowed, wc');
      } else {
        FoldWithin(wc', s.mask);
        RangeWithin(s.mask, 0, end);
        WithinTrans(Range(s.mask, 0, end), s.mask, r.wc);
        PassSame(tries, s, start, end, f, g, wc, r.wc);
        AgreeLess(s.mask, r.wc, f, g);
        FindMatchIsFirst(h, s, f, 0);
        FindMatchIsFirst(h, s, g, 0);
        FirstMatchSame(s, f, g, 0);
      }
    }
  }

  /** From a stage on, the mask only grows, and it takes in the mask of that stage. */
  lemma {:induction false} StageGrows(h: Hasher, s: Subtable, tries: seq<Trie>, f: FlowBits, i: nat, narrowed: bool, wc: FlowBits)
    requires ListsOk(s) && IndicesOk(h, s) && TriesCover(tries, s) && i < |s.ofs|
    ensures Within(wc, Stage(h, s, tries, f, i, narrowed, wc).wc)
    ensures Within(Range(s.mask, 0, s.ofs[i]), Stage(h, s, tries, f, i, narrowed, wc).wc)
    decreases |s.ofs| - i, 0
  {
    hide StageHash, Matches, ListsOk, TriesCover, Or, Range, Within, IndicesOk, FindFrom;
    IndexEnds(h, s, i);
    FoldWithin(wc, Range(s.mask, 0, s.ofs[i]));
    FoldWithin(wc, s.mask);
    RangeWithin(s.mask, 0, s.ofs[i]);
    WithinTrans(Range(s.mask, 0, s.ofs[i]), s.mask, Or(wc, s.mask));
    FindGrows(h, s, tries, f, i + 1, s.ofs[i], true, wc);
    FindGrows(h, s, tries, f, i + 1, s.ofs[i], false, wc);
  }

  lemma {:induction false} FindGrows(h: Hasher, s: Subtable, tries: seq<Trie>, f: FlowBits, i: nat, start: nat, narrowed: bool, wc: FlowBits)
    requires ListsOk(s) && IndicesOk(h, s) && TriesCover(tries, s) && i <= |s.ofs| && start <= FLOW_U32S
    requires i < |s.ofs| ==> start <= s.ofs[i]
    ensures Within(wc, FindFrom(h, s, tries, f, i, start, narrowed, wc).wc)
    ensures Within(Range(s.mask, 0, start), FindFrom(h, s, tries, f, i, start, narrowed, wc).wc)
    decreases |s.ofs| - i, 1
  {
    hide StageHash, Matches, ListsOk, TriesCover, FindMatch, CheckTries, Or, Range, Within, IndicesOk, Stage, AgreeOn, NoneMatches;
    IndexEnds(h, s, i);
    PlensMatch(tries, s);
    var end := if i < |s.ofs| then s.ofs[i] else FLOW_U32S;
    var (skip, wc') := CheckTries(tries, s.plens, start, end, f, wc, 0);
    var part := Range(s.mask, 0, start);
    SkipExcludes(tries, s, start, end, f, wc, 0, f);
    if skip {
      FoldWithin(wc', part);
      WithinTrans(wc, wc', Or(wc', part));
    } else if i < |s.ofs| {
      StageGrows(h, s, tries, f, i, narrowed, wc');
      RangeLess(s.mask, start, end);
      WithinTrans(part, Range(s.mask, 0, end), Stage(h, s, tries, f, i, narrowed, wc').wc);
    } else {
      FoldWithin(wc', s.mask);
      RangeWithin(s.mask, 0, start);
      WithinTrans(part, s.mask, Or(wc', s.mask));
    }
  }

  lemma RangeLess(mask: FlowBits, a: nat, b: nat)
    requires a <= b
    ensures Within(Range(mask, 0, a), Range(mask, 0, b))
  {
    hide Range;
  }

  lemma {:induction false} StageIsSame(h: Hasher, s: Subtable, tries: seq<Trie>, f: FlowBits, g: FlowBits, i: nat, narrowed: bool, wc: FlowBits)
    requires ListsOk(s) && IndicesOk(h, s) && TriesCover(tries, s) && i < |s.ofs|
    requires narrowed ==> NoneMatches(s, f)
    requires OneTrie(s, tries, f, g) && AgreeOn(Stage(h, s, tries, f, i, narrowed, wc).wc, f, g)
    ensures Stage(h, s, tries, g, i, narrowed, wc) == Stage(h, s, tries, f, i, narrowed, wc)
    decreases |s.ofs| - i, 0
  {
    hide StageHash, ListsOk, TriesCover, FirstMatch, FindMatch, CheckTries, Or, Range, Within, IndicesOk, FindFrom, AgreeOn, OneTrie, Matches, Has;
    IndexEnds(h, s, i);
    var r, x := Stage(h, s, tries, f, i, narrowed, wc), StageHash(h, f, s.mask, s.ofs[i]);
    StageGrows(h, s, tries, f, i, narrowed, wc);
    AgreeLess(Range(s.mask, 0, s.ofs[i]), r.wc, f, g);
    StageHashSame(h, f, g, s.mask, s.ofs[i]);
    StageIsSound(h, s, tries, f, i, narrowed, wc);
    FirstMatchNone(s, f);
    FirstMatchNone(s, g);
    if x in s.indices[i] {
      var single := |s.indices[i][x]| == 1 && !narrowed;
      if single {
        SingleDecides(h, s, i, f);
        SingleDecides(h, s, i, g);
      }
      if !(single && Matches(s.indices[i][x][0], f)) {
        FindIsSame(h, s, tries, f, g, i + 1, s.ofs[i], narrowed || single, wc);
      }
    }
  }
}
