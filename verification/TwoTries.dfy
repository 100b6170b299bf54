/**
 With two tries the regions of two lookups can overlap without being equal: the trie that
 decides is the first that excludes the subtable, and a trie that does not exclude it
 leaves no trace in the mask.
 */
module TwoTries {
  import opened Bits
  import opened Flow
  import opened Lookup
  import opened Classify
  import opened Upkeep
  import T = TrieModel

  /** The flow with ones at these places. */
  function At(on: set<nat>): (f: FlowBits)
    ensures forall i :: 0 <= i < FLOW_BITS ==> f[i] == (i in on)
  {
    seq(FLOW_BITS, i requires 0 <= i < FLOW_BITS => i in on)
  }

  /** A trie on one word of the flow that stores the prefix of one bit, a one. */
  function OneBit(word: nat): Trie
    requires word < 2
  {
    Trie(Field(word, word, 32, f => true), T.Node([true], 1, T.Nil, T.Nil))
  }

  /** One rule, which looks at the first bit of each of two words. */
  function BothRule(): Rule {
    Rule(0, At({0, 32}), At({0, 32}), 1)
  }

  function BothView(): View {
    var s := Subtable(At({0, 32}), [[BothRule()]], 1, 1, TAG_BITS, [], [], [1, 1]);
    View(Hasher((a, b) => 0, (a, b) => 0, m => 0), [s], map[], [OneBit(0), OneBit(1)])
  }

  /** What a trie says, and what bits it says it by. */
  lemma OneBitResult(word: nat, f: FlowBits)
    requires word < 2
    ensures TrieResult(OneBit(word), f) == if f[32 * word] then (1, 1) else (0, 1)
  {
    var v := FieldBits(f, OneBit(word).field);
    assert v[0] == f[32 * word];
    var t := OneBit(word).tree;
    assert t.bits <= v <==> v[0];
  }

  lemma BothOk()
    ensures ViewOk(BothView())
  {
    hide T.Lookup;
    var v := BothView();
    var s := v.subtables[0];
    var r := BothRule();
    assert s.rules[0][0] == r && forall x :: Has(s, x) <==> x == r;
    assert !ExactMetadata(s.mask) by { assert !Metadata(s.mask)[0]; }
    assert |TAG_BITS| >= 2 by { TagBitsSize(); }
    assert ListOk(s.rules[0], s.mask);
    assert TriesCover(v.tries, s) by { BothCover(); }
    assert SubtableOk(v, s);
  }

  lemma BothCover()
    ensures TriesCover(BothView().tries, BothView().subtables[0])
  {
    var v := BothView();
    var s := v.subtables[0];
    assert s.rules[0][0] == BothRule() && forall x :: Has(s, x) <==> x == BothRule();
    assert FieldBits(At({0, 32}), OneBit(0).field)[..1] == [true];
    assert FieldBits(At({0, 32}), OneBit(1).field)[..1] == [true];
  }

  /** The mask has the bit of the first trie that excludes the rule, and no other. */
  lemma BothMask(f: FlowBits, word: nat)
    requires word < 2 && !f[32 * word] && (word == 1 ==> f[0])
    ensures ViewOk(BothView()) && LookupRule(BothView(), f, Zeros(FLOW_BITS)) == Found(None, At({32 * word}))
  {
    hide ViewOk, TrieResult, Range;
    BothOk();
    OneBitResult(0, f);
    OneBitResult(1, f);
    var v, wc := BothView(), Zeros(FLOW_BITS);
    var s := v.subtables[0];
    assert Intersects(Tags(v, f), s.tag) by { assert TAG_ARBITRARY * TAG_BITS == {0, 1}; assert |{0, 1}| == 2; }
    var wc' := SetPrefix(wc, v.tries[word].field, 1);
    assert !PrefixSet(wc, v.tries[word].field, 1) by { assert !wc[32 * word]; }
    assert CheckTries(v.tries, s.plens, 0, FLOW_U32S, f, wc, 0) == (true, wc');
    assert Or(wc', Range(s.mask, 0, 0)) == At({32 * word}) by { assert forall i :: 0 <= i < FLOW_BITS ==> !Range(s.mask, 0, 0)[i]; }
    assert LookupFrom(v, f, 1, None, At({32 * word})) == Found(None, At({32 * word}));
  }

  /** Two lookups whose regions share a flow and are not equal. */
  lemma TwoTriesOverlap()
    ensures var v, a, b: FlowBits := BothView(), At({0}), Zeros(FLOW_BITS);
            ViewOk(v) && InRegion(v, a, b) && InRegion(v, b, b) && InRegion(v, a, a) && !InRegion(v, b, a)
  {
    hide ViewOk, LookupRule;
    var a, b := At({0}), Zeros(FLOW_BITS);
    BothMask(a, 1);
    BothMask(b, 0);
    assert a[0] && !b[0] && At({0})[0] && !At({32})[0];
  }
}
