/** The loops of `classifier_lookup`, against the lookup functions. */
module Search {
  import opened Bits
  import opened Flow
  import opened Lookup
  import opened Tables
  import opened Classify
  import opened PrefixMasks
  import opened SubtableOps
  import opened State
  import opened TrieBank
  import T = TrieModel

  /** `struct trie_ctx`: the result of looking the flow up in one trie, once that is done. */
  datatype TrieCtx = TrieCtx(done: bool, matchPlen: nat, maskbits: nat)

  ghost predicate CtxOk(ctx: seq<TrieCtx>, tries: seq<Trie>, f: FlowBits) {
    |ctx| == |tries| && forall j :: 0 <= j < |ctx| && ctx[j].done ==> (ctx[j].matchPlen, ctx[j].maskbits) == TrieResult(tries[j], f)
  }

  lemma MaskbitsFit(t: Trie, f: FlowBits)
    ensures TrieResult(t, f).1 <= t.field.bits
  {
    hide T.Lookup;
    if t.field.prereq(f) {
      T.CheckbitsBounds(t.tree, FieldBits(f, t.field));
    }
  }

  /** `check_tries`. */
  method RunCheckTries(bank: Bank, ctx: seq<TrieCtx>, plens: seq<nat>, start: nat, end: nat, f: FlowBits, wc: FlowBits)
    returns (skip: bool, wc': FlowBits, ctx': seq<TrieCtx>)
    requires bank.Valid() && |plens| == |bank.views| && CtxOk(ctx, bank.views, f)
    ensures (skip, wc') == CheckTries(bank.views, plens, start, end, f, wc, 0) && CtxOk(ctx', bank.views, f)
  {
    hide TrieResult, PrefixSet, SetPrefix, Bank.Valid;
    bank.BagsStored();
    ctx' := ctx;
    for j := 0 to |bank.fields|
      invariant CtxOk(ctx', bank.views, f)
      invariant CheckTries(bank.views, plens, start, end, f, wc, j) == CheckTries(bank.views, plens, start, end, f, wc, 0)
    {
      var fld := bank.fields[j];
      if plens[j] > 0 && start <= fld.ofs < end {
        if !ctx'[j].done {
          var matchPlen, maskbits := bank.LookupAt(j, f);
          ctx' := ctx'[j := TrieCtx(true, matchPlen, maskbits)];
        }
        if plens[j] > ctx'[j].matchPlen {
          MaskbitsFit(bank.views[j], f);
          var isSet := MaskPrefixBitsSet(wc, fld, ctx'[j].maskbits);
          if isSet {
            return true, wc, ctx';
          }
          if ctx'[j].maskbits <= plens[j] {
            wc' := MaskSetPrefixBits(wc, fld, ctx'[j].maskbits);
            return true, wc', ctx';
          }
        }
      }
    }
    skip, wc' := false, wc;
  }

  /** `find_match`. */
  method RunFindMatch(h: Hasher, s: Subtable, f: FlowBits, hash: nat) returns (r: Option<Rule>)
    requires ListsOk(s)
    ensures r == FindMatch(h, s, f, hash, 0)
  {
    hide ListOk, StageHash, Matches;
    for k := 0 to |s.rules|
      invariant FindMatch(h, s, f, hash, k) == FindMatch(h, s, f, hash, 0)
    {
      var head := HeadOf(s, k);
      if StageHash(h, head.flow, s.mask, FLOW_U32S) == hash && Matches(head, f) {
        return Some(head);
      }
    }
    r := None;
  }

  function HeadOf(s: Subtable, k: nat): Rule
    requires ListsOk(s) && k < |s.rules|
  {
    assert ListOk(s.rules[k], s.mask);
    s.rules[k][0]
  }

  lemma PlensFit(tries: seq<Trie>, s: Subtable)
    requires TriesCover(tries, s)
    ensures |s.plens| == |tries|
  {
  }

  /** `find_match_wc` with a wildcard argument. */
  method RunFindMatchWc(bank: Bank, h: Hasher, s: Subtable, ctx: seq<TrieCtx>, f: FlowBits, wc: FlowBits)
    returns (r: Found, ctx': seq<TrieCtx>)
    requires bank.Valid() && ListsOk(s) && IndicesOk(h, s) && TriesCover(bank.views, s) && CtxOk(ctx, bank.views, f)
    ensures r == FindFrom(h, s, bank.views, f, 0, 0, false, wc) && CtxOk(ctx', bank.views, f)
  {
    hide ListsOk, TriesCover, CheckTries, StageHash, HashWords, MaskWords, Bank.Valid, CtxOk, Or, Range, Matches, FindMatch;
    PlensFit(bank.views, s);
    StartHash(h, f, s.mask);
    ctx' := ctx;
    var basis, start, narrowed, wc', skip, i := 0, 0, false, wc, false, 0;
    while i < |s.ofs|
      invariant i <= |s.ofs| && start == StartOf(s.ofs, i) && CtxOk(ctx', bank.views, f)
      invariant basis == HashWords(h, f, s.mask, 0, start, 0)
      invariant FindFrom(h, s, bank.views, f, i, start, narrowed, wc') == FindFrom(h, s, bank.views, f, 0, 0, false, wc)
    {
      skip, wc', ctx' := RunCheckTries(bank, ctx', s.plens, start, s.ofs[i], f, wc');
      if skip {
        return Found(None, Or(wc', Range(s.mask, 0, start))), ctx';
      }
      NextHash(h, f, s.mask, start, s.ofs[i]);
      basis := HashWords(h, f, s.mask, start, s.ofs[i], basis);
      var x := h.finish(basis, 4 * MaskWords(s.mask, s.ofs[i]));
      start := s.ofs[i];
      if x !in s.indices[i] {
        return Found(None, Or(wc', Range(s.mask, 0, start))), ctx';
      }
      if |s.indices[i][x]| == 1 && !narrowed {
        var rule := s.indices[i][x][0];
        if Matches(rule, f) {
          return Found(Some(rule), Or(wc', s.mask)), ctx';
        }
        narrowed := true;
      }
      i := i + 1;
    }
    skip, wc', ctx' := RunCheckTries(bank, ctx', s.plens, start, FLOW_U32S, f, wc');
    if skip {
      return Found(None, Or(wc', Range(s.mask, 0, start))), ctx';
    }
    var found: Option<Rule> := None;
    if !narrowed {
      NextHash(h, f, s.mask, start, FLOW_U32S);
      basis := HashWords(h, f, s.mask, start, FLOW_U32S, basis);
      found := RunFindMatch(h, s, f, h.finish(basis, 4 * MaskWords(s.mask, FLOW_U32S)));
    }
    r := Found(found, Or(wc', s.mask));
  }
}
