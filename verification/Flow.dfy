/**
 Flows, masks and rules as the classifier sees them: whole `struct flow`s read as
 arrays of 32-bit words (`lib/flow.h`, `lib/match.h`), and their hashes.
 */
module Flow {
  import opened Bits

  /** `struct flow` in 32-bit words, with the two words of OpenFlow metadata. */
  const FLOW_U32S: nat := 46
  const FLOW_BITS: nat := 1472
  const METADATA_U32: nat := 6

  /** A `struct flow`, or the `struct flow` of 1-bits that a mask is. */
  type FlowBits = f: Bits | |f| == FLOW_BITS witness Zeros(FLOW_BITS)

  /** 'f' and 'g' have the same bits where 'mask' has 1-bits. */
  predicate AgreeOn(mask: FlowBits, f: FlowBits, g: FlowBits) {
    forall i :: 0 <= i < FLOW_BITS && mask[i] ==> f[i] == g[i]
  }

  predicate Within(a: FlowBits, b: FlowBits) {
    forall i :: 0 <= i < FLOW_BITS && a[i] ==> b[i]
  }

  /** 'mask' restricted to the words from 'start' up to 'end'. */
  function Range(mask: FlowBits, start: nat, end: nat): (r: FlowBits)
    ensures forall i :: 0 <= i < FLOW_BITS ==> r[i] == (mask[i] && 32 * start <= i < 32 * end)
  {
    seq(FLOW_BITS, i requires 0 <= i < FLOW_BITS => mask[i] && 32 * start <= i < 32 * end)
  }

  function Metadata(f: FlowBits): Bits {
    f[32 * METADATA_U32..32 * METADATA_U32 + 64]
  }

  /** The mask fixes every metadata bit. */
  predicate ExactMetadata(mask: FlowBits) {
    Metadata(mask) == Ones(64, 64)
  }

  datatype RuleData = Rule(id: nat, flow: FlowBits, mask: FlowBits, priority: nat)

  /**
   A `cls_rule`: what it matches, and how strongly.  'id' stands for the caller's
   pointer.  As `struct match` demands, wildcarded bits are zero.
   */
  type Rule = r: RuleData | Within(r.flow, r.mask) witness Rule(0, Zeros(FLOW_BITS), Zeros(FLOW_BITS), 0)

  predicate Matches(r: Rule, f: FlowBits) {
    AgreeOn(r.mask, r.flow, f)
  }

  datatype Option<+T> = None | Some(value: T)

  // ----- hashing

  /** An arbitrary incremental hash of words; equal hashes of different flows are allowed. */
  datatype Hasher = Hasher(add: (nat, Bits) -> nat, finish: (nat, nat) -> nat, ofMask: Bits -> nat)

  /** Adds the masked words from 'start' up to 'end' to the unfinished hash 'basis'. */
  function HashWords(h: Hasher, f: FlowBits, mask: FlowBits, start: nat, end: nat, basis: nat): nat
    requires end <= FLOW_U32S
    decreases end - start
  {
    if start >= end then basis else
      var w := Word(mask, start);
      HashWords(h, f, mask, start + 1, end, if w == Zeros(32) then basis else h.add(basis, And(Word(f, start), w)))
  }

  /** The number of nonzero words of 'mask' before 'end'. */
  function MaskWords(mask: FlowBits, end: nat): nat
    requires end <= FLOW_U32S
  {
    if end == 0 then 0 else MaskWords(mask, end - 1) + if Word(mask, end - 1) == Zeros(32) then 0 else 1
  }

  /** The finished hash of the masked words before 'end'. */
  function StageHash(h: Hasher, f: FlowBits, mask: FlowBits, end: nat): nat
    requires end <= FLOW_U32S
  {
    h.finish(HashWords(h, f, mask, 0, end, 0), 4 * MaskWords(mask, end))
  }

  /** Hashing range by range ends in the same value as hashing at once. */
  lemma {:induction false} HashByRanges(h: Hasher, f: FlowBits, mask: FlowBits, start: nat, mid: nat, end: nat, basis: nat)
    requires start <= mid <= end <= FLOW_U32S
    ensures HashWords(h, f, mask, mid, end, HashWords(h, f, mask, start, mid, basis)) == HashWords(h, f, mask, start, end, basis)
    decreases mid - start
  {
    hide Word, And, Zeros;
    if start < mid {
      var w := Word(mask, start);
      HashByRanges(h, f, mask, start + 1, mid, end, if w == Zeros(32) then basis else h.add(basis, And(Word(f, start), w)));
    }
  }

  lemma {:induction false} HashWordsSame(h: Hasher, f: FlowBits, g: FlowBits, mask: FlowBits, start: nat, end: nat, basis: nat)
    requires end <= FLOW_U32S && AgreeOn(Range(mask, 0, end), f, g)
    ensures HashWords(h, f, mask, start, end, basis) == HashWords(h, g, mask, start, end, basis)
    decreases end - start
  {
    hide Word, And, Zeros, Range, AgreeOn;
    if start < end {
      var w := Word(mask, start);
      SameWord(f, g, mask, start, end);
      HashWordsSame(h, f, g, mask, start + 1, end, if w == Zeros(32) then basis else h.add(basis, And(Word(f, start), w)));
    }
  }

  lemma SameWord(f: FlowBits, g: FlowBits, mask: FlowBits, i: nat, end: nat)
    requires i < end <= FLOW_U32S && AgreeOn(Range(mask, 0, end), f, g)
    ensures And(Word(f, i), Word(mask, i)) == And(Word(g, i), Word(mask, i))
  {
    hide Word, And, Range;
    forall j | 0 <= j < 32 ensures And(Word(f, i), Word(mask, i))[j] == And(Word(g, i), Word(mask, i))[j] {
      assert Range(mask, 0, end)[32 * i + j] == mask[32 * i + j];
    }
  }

  /** Flows that agree on the mask before 'end' hash alike there. */
  lemma StageHashSame(h: Hasher, f: FlowBits, g: FlowBits, mask: FlowBits, end: nat)
    requires end <= FLOW_U32S && AgreeOn(Range(mask, 0, end), f, g)
    ensures StageHash(h, f, mask, end) == StageHash(h, g, mask, end)
  {
    hide HashWords, MaskWords;
    HashWordsSame(h, f, g, mask, 0, end, 0);
  }

  // ----- facts about masks

  lemma AgreeLess(a: FlowBits, b: FlowBits, f: FlowBits, g: FlowBits)
    requires Within(a, b) && AgreeOn(b, f, g)
    ensures AgreeOn(a, f, g)
  {
  }

  /** A flow that agrees with 'f' on a mask is matched there by the same values. */
  lemma AgreeTrans(mask: FlowBits, a: FlowBits, f: FlowBits, g: FlowBits)
    requires AgreeOn(mask, f, g)
    ensures AgreeOn(mask, a, f) <==> AgreeOn(mask, a, g)
  {
  }

  /** Folding a mask in keeps what was there and adds the mask. */
  lemma FoldWithin(wc: FlowBits, mask: FlowBits)
    ensures Within(wc, Or(wc, mask)) && Within(mask, Or(wc, mask))
  {
    hide Or;
  }

  lemma RangeWithin(mask: FlowBits, start: nat, end: nat)
    ensures Within(Range(mask, start, end), mask)
  {
    hide Range;
  }
}
