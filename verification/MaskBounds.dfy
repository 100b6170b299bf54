/**
 What a lookup leaves wildcarded: every bit that it adds to the mask is a bit that some
 searched subtable looked at before it could tell that it has no match.
 */
module MaskBounds {
  import opened Bits
  import opened Flow
  import opened Lookup
  import opened Tables
  import opened State
  import opened Classify
  import T = TrieModel

  function EndOf(s: Subtable, i: nat): nat {
    if i < |s.ofs| then s.ofs[i] else FLOW_U32S
  }

  /** No rule of the subtable has the flow's hash at stage 'i'. */
  ghost predicate Missed(h: Hasher, s: Subtable, i: nat, f: FlowBits) {
    i < |s.ofs| && s.ofs[i] <= FLOW_U32S && forall r :: Has(s, r) ==> StageHash(h, r.flow, s.mask, s.ofs[i]) != StageHash(h, f, s.mask, s.ofs[i])
  }

  /** Trie 'j', on a field of stage 'i', tells that the subtable has no match. */
  predicate Against(s: Subtable, tries: seq<Trie>, j: nat, i: nat, f: FlowBits) {
    && j < |tries| && |s.plens| == |tries| && i <= |s.ofs| && StartOf(s.ofs, i) <= tries[j].field.ofs < EndOf(s, i)
    && TrieResult(tries[j], f).0 < s.plens[j]
  }

  /** It tells so by bits that the subtable's mask has anyway. */
  predicate Affords(s: Subtable, tries: seq<Trie>, j: nat, i: nat, f: FlowBits) {
    Against(s, tries, j, i, f) && TrieResult(tries[j], f).1 <= s.plens[j]
  }

  /** It may be used: by such bits, or by bits that are in the mask already. */
  predicate Excludes(s: Subtable, tries: seq<Trie>, j: nat, i: nat, f: FlowBits, wc: FlowBits) {
    Against(s, tries, j, i, f) && (TrieResult(tries[j], f).1 <= s.plens[j] || PrefixSet(wc, tries[j].field, TrieResult(tries[j], f).1))
  }

  /** One of the bits that decide the trie lookup. */
  predicate TrieBit(t: Trie, f: FlowBits, b: nat) {
    32 * t.field.ofs <= b < 32 * t.field.ofs + TrieResult(t, f).1
  }

  /** Bit 'b' comes before stage 'i', or is one by which a trie excludes the subtable there. */
  ghost predicate UpToTries(s: Subtable, tries: seq<Trie>, i: nat, f: FlowBits, b: nat)
    requires i <= |s.ofs|
  {
    b < 32 * StartOf(s.ofs, i) || exists j: nat :: j < |tries| && Affords(s, tries, j, i, f) && TrieBit(tries[j], f, b)
  }

  ghost predicate StagesOk(s: Subtable, tries: seq<Trie>) {
    forall t :: t in tries ==> InOneStage(s, t.field)
  }

  /**
   The search of the subtable may un-wildcard bit 'b': its mask has the bit, and no earlier
   stage or trie has told that there is no match.
   */
  ghost predicate MayAdd(h: Hasher, s: Subtable, tries: seq<Trie>, f: FlowBits, wc: FlowBits, b: nat)
    requires b < FLOW_BITS
  {
    && s.mask[b]
    && (StagesOk(s, tries) ==> forall i: nat :: Missed(h, s, i, f) ==> b < 32 * EndOf(s, i))
    && (StagesOk(s, tries) ==> forall i: nat, j: nat :: 0 <= i <= |s.ofs| && Excludes(s, tries, j, i, f, wc) ==> UpToTries(s, tries, i, f, b))
  }

  /** Neither an index nor a trie has stopped the search before stage 'i'. */
  ghost predicate Reached(h: Hasher, s: Subtable, tries: seq<Trie>, f: FlowBits, wc: FlowBits, i: nat) {
    && (forall k: nat :: Missed(h, s, k, f) ==> k >= i)
    && (forall k: nat, j: nat :: Excludes(s, tries, j, k, f, wc) ==> k >= i)
  }

  // ----- the trie check

  /** A trie that excludes the subtable ends the check, and what ends it is such a trie or nothing new. */
  lemma {:induction false} CheckBits(tries: seq<Trie>, s: Subtable, i: nat, f: FlowBits, wc: FlowBits, k: nat)
    requires |s.plens| == |tries| && i <= |s.ofs|
    ensures var (skip, wc') := CheckTries(tries, s.plens, StartOf(s.ofs, i), EndOf(s, i), f, wc, k);
            && (!skip ==> wc' == wc && forall j: nat :: k <= j ==> !Excludes(s, tries, j, i, f, wc))
            && (skip ==> wc' == wc || exists j: nat :: j < |tries| && Affords(s, tries, j, i, f) && wc' == SetPrefix(wc, tries[j].field, TrieResult(tries[j], f).1))
    decreases |tries| - k
  {
    hide TrieResult, PrefixSet, SetPrefix;
    if k < |tries| {
      CheckBits(tries, s, i, f, wc, k + 1);
    }
  }

  /** The bits of a trie that excludes the subtable at stage 'i' are bits of its mask in that stage. */
  lemma TrieBitIn(s: Subtable, tries: seq<Trie>, j: nat, i: nat, f: FlowBits, b: nat)
    requires TriesCover(tries, s) && Affords(s, tries, j, i, f) && b < FLOW_BITS && TrieBit(tries[j], f, b)
    ensures s.mask[b]
    ensures StagesOk(s, tries) ==> b < 32 * EndOf(s, i)
  {
    hide TrieResult;
    var t := tries[j];
    assert PrefixSet(s.mask, t.field, s.plens[j]);
    if StagesOk(s, tries) {
      assert t in tries && InOneStage(s, t.field);
      FieldEnd(t.field);
      assert i < |s.ofs| ==> s.ofs[i] in s.ofs;
    }
  }

  /** Stages follow each other. */
  lemma StagesFollow(h: Hasher, s: Subtable, i: nat, k: nat)
    requires IndicesOk(h, s) && i < k <= |s.ofs|
    ensures EndOf(s, i) <= StartOf(s.ofs, k) && StartOf(s.ofs, i) <= EndOf(s, i)
  {
    hide StageHash;
  }

  /** A bit of the mask in or before a stage that was reached may be added. */
  lemma BeforeMayAdd(h: Hasher, s: Subtable, tries: seq<Trie>, f: FlowBits, wc: FlowBits, i: nat, b: nat)
    requires IndicesOk(h, s) && i <= |s.ofs| && Reached(h, s, tries, f, wc, i) && b < FLOW_BITS && s.mask[b]
    requires StagesOk(s, tries) ==> b < 32 * EndOf(s, i)
    requires StagesOk(s, tries) ==> forall j: nat :: Excludes(s, tries, j, i, f, wc) ==> UpToTries(s, tries, i, f, b)
    ensures MayAdd(h, s, tries, f, wc, b)
  {
    hide IndicesOk, StagesOk;
    if StagesOk(s, tries) {
      forall k: nat | Missed(h, s, k, f) ensures b < 32 * EndOf(s, k) {
        if i < k {
          StagesFollow(h, s, i, k);
          StartBeforeEnd(h, s, k);
        }
      }
      forall k: nat, j: nat | 0 <= k <= |s.ofs| && Excludes(s, tries, j, k, f, wc) ensures UpToTries(s, tries, k, f, b) {
        if i < k { StagesFollow(h, s, i, k); }
      }
    }
  }

  /** A subtable with a match is not stopped anywhere. */
  lemma MatchReaches(h: Hasher, s: Subtable, tries: seq<Trie>, f: FlowBits, wc: FlowBits, r: Rule)
    requires ListsOk(s) && IndicesOk(h, s) && TriesCover(tries, s) && Has(s, r) && Matches(r, f)
    ensures forall k: nat :: !Missed(h, s, k, f)
    ensures forall k: nat, j: nat :: !Excludes(s, tries, j, k, f, wc)
  {
    hide StageHash, ListsOk, Matches, Has, TrieResult, IndicesOk, TriesCover;
    HasMask(s, r);
    forall k: nat | k < |s.ofs| && s.ofs[k] <= FLOW_U32S ensures !Missed(h, s, k, f) {
      MatchHash(h, r, f, s.ofs[k]);
    }
    forall k: nat, j: nat ensures !Excludes(s, tries, j, k, f, wc) {
      if Excludes(s, tries, j, k, f, wc) { ExcludesAll(s, tries, j, k, f, wc); }
    }
  }

  lemma ExcludesAll(s: Subtable, tries: seq<Trie>, j: nat, i: nat, f: FlowBits, wc: FlowBits)
    requires ListsOk(s) && TriesCover(tries, s) && Excludes(s, tries, j, i, f, wc)
    ensures NoneMatches(s, f)
  {
    hide ListsOk, NoneMatches, T.Lookup, T.Count, T.Shape;
    TrieExcludes(tries, s, j, f);
  }

  /** What is found in an index has the flow's hash. */
  lemma HitIsNoMiss(h: Hasher, s: Subtable, i: nat, f: FlowBits)
    requires IndicesOk(h, s) && i < |s.ofs| && StageHash(h, f, s.mask, s.ofs[i]) in s.indices[i]
    ensures !Missed(h, s, i, f)
  {
    hide StageHash, Has;
    var l := s.indices[i][StageHash(h, f, s.mask, s.ofs[i])];
    assert l[0] in l;
  }

  // ----- one subtable

  lemma {:induction false} FindMayAdd(h: Hasher, s: Subtable, tries: seq<Trie>, f: FlowBits, i: nat, narrowed: bool, wc: FlowBits, b: nat)
    requires ListsOk(s) && IndicesOk(h, s) && TriesCover(tries, s) && i <= |s.ofs| && StartOf(s.ofs, i) <= FLOW_U32S
    requires Reached(h, s, tries, f, wc, i) && b < FLOW_BITS && !wc[b]
    requires FindFrom(h, s, tries, f, i, StartOf(s.ofs, i), narrowed, wc).wc[b]
    ensures MayAdd(h, s, tries, f, wc, b)
    decreases |s.ofs| - i, 1
  {
    hide StageHash, Matches, ListsOk, TriesCover, FindMatch, CheckTries, IndicesOk, Stage, Range, Or, Reached, MayAdd, Excludes;
    PlensMatch(tries, s);
    IndexEnds(h, s, i);
    var start, end := StartOf(s.ofs, i), EndOf(s, i);
    var (skip, wc') := CheckTries(tries, s.plens, start, end, f, wc, 0);
    CheckBits(tries, s, i, f, wc, 0);
    if skip {
      SkipMayAdd(h, s, tries, f, i, wc, wc', b);
    } else if i < |s.ofs| {
      StageMayAdd(h, s, tries, f, i, narrowed, wc, b);
    } else {
      OrAt(wc, s.mask, b);
      BeforeMayAdd(h, s, tries, f, wc, i, b);
    }
  }

  lemma OrAt(a: FlowBits, m: FlowBits, b: nat)
    requires b < FLOW_BITS
    ensures Or(a, m)[b] == (a[b] || m[b])
  {
  }

  lemma SkipMayAdd(h: Hasher, s: Subtable, tries: seq<Trie>, f: FlowBits, i: nat, wc: FlowBits, wc': FlowBits, b: nat)
    requires IndicesOk(h, s) && TriesCover(tries, s) && i <= |s.ofs| && Reached(h, s, tries, f, wc, i) && b < FLOW_BITS && !wc[b]
    requires wc' == wc || exists j: nat :: j < |tries| && Affords(s, tries, j, i, f) && wc' == SetPrefix(wc, tries[j].field, TrieResult(tries[j], f).1)
    requires Or(wc', Range(s.mask, 0, StartOf(s.ofs, i)))[b]
    ensures MayAdd(h, s, tries, f, wc, b)
  {
    hide IndicesOk, TriesCover, Reached, MayAdd, Excludes, Or, TrieResult;
    OrAt(wc', Range(s.mask, 0, StartOf(s.ofs, i)), b);
    StartBeforeEnd(h, s, i);
    if wc'[b] {
      var j: nat :| j < |tries| && Affords(s, tries, j, i, f) && wc' == SetPrefix(wc, tries[j].field, TrieResult(tries[j], f).1);
      assert TrieBit(tries[j], f, b);
      TrieBitIn(s, tries, j, i, f, b);
    }
    BeforeMayAdd(h, s, tries, f, wc, i, b);
  }

  lemma StartBeforeEnd(h: Hasher, s: Subtable, i: nat)
    requires IndicesOk(h, s) && i <= |s.ofs|
    ensures StartOf(s.ofs, i) <= EndOf(s, i)
  {
    hide StageHash;
  }

  lemma {:induction false} StageMayAdd(h: Hasher, s: Subtable, tries: seq<Trie>, f: FlowBits, i: nat, narrowed: bool, wc: FlowBits, b: nat)
    requires ListsOk(s) && IndicesOk(h, s) && TriesCover(tries, s) && i < |s.ofs|
    requires Reached(h, s, tries, f, wc, i) && (forall j: nat :: !Excludes(s, tries, j, i, f, wc)) && b < FLOW_BITS && !wc[b]
    requires Stage(h, s, tries, f, i, narrowed, wc).wc[b]
    ensures MayAdd(h, s, tries, f, wc, b)
    decreases |s.ofs| - i, 0
  {
    hide StageHash, Matches, ListsOk, TriesCover, IndicesOk, FindFrom, Range, Or, MayAdd, Excludes, Missed, Has;
    IndexEnds(h, s, i);
    var x := StageHash(h, f, s.mask, s.ofs[i]);
    if x !in s.indices[i] {
      OrAt(wc, Range(s.mask, 0, s.ofs[i]), b);
      BeforeMayAdd(h, s, tries, f, wc, i, b);
    } else {
      HitIsNoMiss(h, s, i, f);
      var l := s.indices[i][x];
      if |l| == 1 && !narrowed && Matches(l[0], f) {
        InIndex(h, s, i, x);
        MatchReaches(h, s, tries, f, wc, l[0]);
        OrAt(wc, s.mask, b);
        AllMayAdd(h, s, tries, f, wc, b);
      } else {
        FindMayAdd(h, s, tries, f, i + 1, narrowed || (|l| == 1 && !narrowed), wc, b);
      }
    }
  }

  lemma InIndex(h: Hasher, s: Subtable, i: nat, x: nat)
    requires IndicesOk(h, s) && i < |s.ofs| && x in s.indices[i] && |s.indices[i][x]| == 1
    ensures Has(s, s.indices[i][x][0])
  {
    hide StageHash;
    assert s.indices[i][x][0] in s.indices[i][x];
  }

  lemma AllMayAdd(h: Hasher, s: Subtable, tries: seq<Trie>, f: FlowBits, wc: FlowBits, b: nat)
    requires b < FLOW_BITS && s.mask[b] && (forall k: nat :: !Missed(h, s, k, f)) && forall k: nat, j: nat :: !Excludes(s, tries, j, k, f, wc)
    ensures MayAdd(h, s, tries, f, wc, b)
  {
    hide Missed, Excludes;
  }

  // ----- the whole lookup

  /** Subtable 'k' has to be searched: its tag meets, and no match in an earlier one is as good as it can give. */
  ghost predicate Searched(v: View, f: FlowBits, k: nat) {
    && k < |v.subtables| && Intersects(Tags(v, f), v.subtables[k].tag)
    && forall l, x :: 0 <= l < k && Has(v.subtables[l], x) && Matches(x, f) ==> x.priority < v.subtables[k].maxPriority
  }

  /** Every bit that the mask has gained may be added by some subtable that has to be searched. */
  ghost predicate Tight(v: View, f: FlowBits, wc: FlowBits, wc': FlowBits) {
    forall b :: 0 <= b < FLOW_BITS && wc'[b] && !wc[b] ==> exists k: nat :: k < |v.subtables| && Searched(v, f, k) && MayAdd(v.h, v.subtables[k], v.tries, f, wc, b)
  }

  lemma {:induction false} LookupMayAdd(v: View, f: FlowBits, k: nat, best: Option<Rule>, wc: FlowBits, b: nat)
    requires ViewOk(v) && BestSoFar(v, f, k, best) && b < FLOW_BITS && !wc[b] && LookupFrom(v, f, k, best, wc).wc[b]
    ensures exists l: nat :: l < |v.subtables| && Searched(v, f, l) && MayAdd(v.h, v.subtables[l], v.tries, f, wc, b)
    decreases |v.subtables| - k
  {
    hide ListsOk, IndicesOk, TriesCover, Matches, FindFrom, Tags, Intersects, TagsOk, PartitionsOk, Has, MayAdd, FirstMatch;
    if k < |v.subtables| && !(best.Some? && v.subtables[k].maxPriority <= best.value.priority) {
      var s := v.subtables[k];
      SearchStep(v, f, k, best);
      if !Intersects(Tags(v, f), s.tag) {
        LookupMayAdd(v, f, k + 1, best, wc, b);
      } else {
        assert Searched(v, f, k);
        FindIsSound(v.h, s, v.tries, f, 0, 0, false, wc);
        var r := FindFrom(v.h, s, v.tries, f, 0, 0, false, wc);
        if r.wc[b] {
          NothingBefore(v.h, s, v.tries, f, wc);
          FindMayAdd(v.h, s, v.tries, f, 0, false, wc, b);
        } else {
          LookupMayAdd(v, f, k + 1, Better(best, r.rule), r.wc, b);
          var l: nat :| l < |v.subtables| && Searched(v, f, l) && MayAdd(v.h, v.subtables[l], v.tries, f, r.wc, b);
          LessMayAdd(v.h, v.subtables[l], v.tries, f, wc, r.wc, b);
        }
      }
    }
  }

  /** With less in the mask, fewer tries stop the search. */
  lemma LessMayAdd(h: Hasher, s: Subtable, tries: seq<Trie>, f: FlowBits, wc: FlowBits, wc': FlowBits, b: nat)
    requires b < FLOW_BITS && Within(wc, wc') && MayAdd(h, s, tries, f, wc', b)
    ensures MayAdd(h, s, tries, f, wc, b)
  {
    hide Within, PrefixSet, Against, Missed, UpToTries, StagesOk;
    forall i: nat, j: nat | Excludes(s, tries, j, i, f, wc) ensures Excludes(s, tries, j, i, f, wc') {
      MoreExcludes(s, tries, j, i, f, wc, wc');
    }
  }

  lemma MoreExcludes(s: Subtable, tries: seq<Trie>, j: nat, i: nat, f: FlowBits, wc: FlowBits, wc': FlowBits)
    requires Within(wc, wc') && Excludes(s, tries, j, i, f, wc)
    ensures Excludes(s, tries, j, i, f, wc')
  {
    hide Within, PrefixSet, TrieResult;
    PrefixLess(wc, wc', tries[j].field, TrieResult(tries[j], f).1);
  }

  lemma NothingBefore(h: Hasher, s: Subtable, tries: seq<Trie>, f: FlowBits, wc: FlowBits)
    ensures Reached(h, s, tries, f, wc, 0)
  {
  }

  lemma LookupIsTight(v: View, f: FlowBits, wc: FlowBits)
    requires ViewOk(v)
    ensures Tight(v, f, wc, LookupRule(v, f, wc).wc)
  {
    hide ViewOk, LookupFrom, MayAdd, Searched;
    forall b: nat | b < FLOW_BITS && LookupRule(v, f, wc).wc[b] && !wc[b]
      ensures exists k: nat :: k < |v.subtables| && Searched(v, f, k) && MayAdd(v.h, v.subtables[k], v.tries, f, wc, b)
    {
      NoneSoFar(v, f);
      LookupMayAdd(v, f, 0, None, wc, b);
    }
  }

  lemma NoneSoFar(v: View, f: FlowBits)
    ensures BestSoFar(v, f, 0, None)
  {
  }
}
