/** The word loops over masks in `lib/classifier.c`, against their bit-level meaning. */
module PrefixMasks {
  import opened Bits
  import opened Flow
  import opened Lookup

  function Not(w: Bits): (r: Bits)
    ensures |r| == |w| && forall i :: 0 <= i < |w| ==> r[i] == !w[i]
  {
    seq(|w|, i requires 0 <= i < |w| => !w[i])
  }

  /** A word plus one, without the carry out of it. */
  function Inc(w: Bits): (r: Bits)
    ensures |r| == |w|
  {
    if w == [] then []
    else
      var n := |w| - 1;
      if w[n] then Inc(w[..n]) + [false] else w[..n] + [true]
  }

  /** The number of trailing zeros. */
  function Ctz(w: Bits): (n: nat)
    ensures n <= |w|
  {
    if w == [] || w[|w| - 1] then 0 else 1 + Ctz(w[..|w| - 1])
  }

  /** 'v' is 'n' 1-bits followed by 0-bits only. */
  predicate IsPrefixMask(v: Bits, n: nat) {
    n <= |v| && forall i :: 0 <= i < |v| ==> v[i] == (i < n)
  }

  predicate AllZero(w: Bits) {
    forall i :: 0 <= i < |w| ==> !w[i]
  }

  /** `~mask & (~mask + 1)` is zero exactly for prefix masks, which then end in 'ctz' zeros. */
  lemma {:induction false} ContiguousTest(w: Bits)
    ensures AllZero(And(Not(w), Inc(Not(w)))) <==> IsPrefixMask(w, |w| - Ctz(w))
  {
    hide And, Not;
    if w != [] {
      var n := |w| - 1;
      var u := Not(w);
      assert u[..n] == Not(w[..n]);
      if w[n] {
        var both := And(u, Inc(u));
        assert Inc(u) == u[..n] + [true];
        assert forall i :: 0 <= i < n ==> both[i] == !w[i];
      } else {
        assert Inc(u) == Inc(u[..n]) + [false];
        CarryOn(u[..n], Inc(u[..n]));
        assert u == u[..n] + [true];
        ContiguousTest(w[..n]);
        OneZeroMore(w, n - Ctz(w[..n]));
      }
    }
  }

  lemma CarryOn(u: Bits, v: Bits)
    requires |u| == |v|
    ensures AllZero(And(u + [true], v + [false])) <==> AllZero(And(u, v))
  {
    hide And;
    var a, b := And(u, v), And(u + [true], v + [false]);
    forall i | 0 <= i < |u| ensures a[i] == b[i] {}
  }

  lemma OneZeroMore(w: Bits, k: nat)
    requires w != [] && !w[|w| - 1] && k < |w|
    ensures IsPrefixMask(w, k) <==> IsPrefixMask(w[..|w| - 1], k)
  {
  }

  /** A prefix mask says how long it is. */
  lemma {:induction false} PrefixMaskLength(w: Bits, n: nat)
    requires IsPrefixMask(w, n)
    ensures n == |w| - Ctz(w)
  {
    if w != [] && !w[|w| - 1] {
      PrefixMaskLength(w[..|w| - 1], n);
    }
  }

  /** The length of the prefix that 'mask' fixes of the field, or 0 if it fixes anything else. */
  function PrefixLen(mask: FlowBits, fld: Field): (n: nat)
    ensures PrefixSet(mask, fld, n)
  {
    var v := FieldBits(mask, fld);
    var n := |v| - Ctz(v);
    if IsPrefixMask(v, n) then PrefixMaskSets(mask, fld, n); n else 0
  }

  lemma PrefixMaskSets(mask: FlowBits, fld: Field, n: nat)
    requires IsPrefixMask(FieldBits(mask, fld), n)
    ensures PrefixSet(mask, fld, n)
  {
    var v := FieldBits(mask, fld);
    forall i | 32 * fld.ofs <= i < 32 * fld.ofs + n ensures mask[i] { assert v[i - 32 * fld.ofs]; }
  }

  /** It is the only nonzero length of a prefix mask on the field. */
  lemma PrefixLenSpec(mask: FlowBits, fld: Field, n: nat)
    ensures n > 0 ==> (PrefixLen(mask, fld) == n <==> IsPrefixMask(FieldBits(mask, fld), n))
    ensures PrefixLen(mask, fld) == 0 <==> forall k :: k > 0 ==> !IsPrefixMask(FieldBits(mask, fld), k)
  {
    var v := FieldBits(mask, fld);
    forall k: nat | IsPrefixMask(v, k) ensures k == |v| - Ctz(v) { PrefixMaskLength(v, k); }
  }

  /** `minimask_get_prefix_len`. */
  method GetPrefixLen(mask: FlowBits, fld: Field) returns (n: nat)
    ensures n == PrefixLen(mask, fld)
  {
    hide And, Not, Inc, Ctz, PrefixLen;
    var v := FieldBits(mask, fld);
    var tz: nat := 0;
    n := 0;
    PrefixLenSpec(mask, fld, 0);
    for i := 0 to fld.bits / 32
      invariant IsPrefixMask(v[..32 * i], n)
      invariant tz == 0 ==> n == 32 * i
      invariant tz > 0 ==> n < 32 * i
    {
      var w := Word(v, i);
      assert v[..32 * (i + 1)] == v[..32 * i] + w;
      if tz > 0 {
        if w != Zeros(32) {
          LaterBits(v, n, i);
          return 0;
        }
      } else {
        ContiguousTest(w);
        if And(Not(w), Inc(Not(w))) != Zeros(32) {
          GapInWord(v, i);
          return 0;
        }
        assert IsPrefixMask(w, 32 - Ctz(w));
        tz := Ctz(w);
        n := n + 32 - tz;
      }
    }
    assert v[..fld.bits] == v;
    PrefixLenSpec(mask, fld, n);
    if n == 0 { OnlyZeros(v); }
  }

  lemma LaterBits(v: Bits, n: nat, i: nat)
    requires 32 * i + 32 <= |v| && n < 32 * i && IsPrefixMask(v[..32 * i], n) && Word(v, i) != Zeros(32)
    ensures forall k :: k > 0 ==> !IsPrefixMask(v, k)
  {
    var w := Word(v, i);
    var j :| 0 <= j < 32 && w[j];
    assert v[32 * i + j] && !v[..32 * i][n];
  }

  lemma GapInWord(v: Bits, i: nat)
    requires 32 * i + 32 <= |v| && !IsPrefixMask(Word(v, i), 32 - Ctz(Word(v, i)))
    ensures forall k :: k > 0 ==> !IsPrefixMask(v, k)
  {
    hide Ctz;
    var w := Word(v, i);
    forall k: nat | k > 0 ensures !IsPrefixMask(v, k) {
      if IsPrefixMask(v, k) {
        var m := if k <= 32 * i then 0 else if k >= 32 * i + 32 then 32 else k - 32 * i;
        assert IsPrefixMask(w, m);
        PrefixMaskLength(w, m);
      }
    }
  }

  lemma OnlyZeros(v: Bits)
    requires IsPrefixMask(v, 0) && v != []
    ensures forall k :: k > 0 ==> !IsPrefixMask(v, k)
  {
    assert !v[0];
  }

  // ----- the two prefix loops over the wildcard mask

  /** A flow with word 'k' replaced. */
  function WithWord(f: FlowBits, k: nat, w: Bits): (r: FlowBits)
    requires k < FLOW_U32S && |w| == 32
    ensures forall i :: 0 <= i < FLOW_BITS ==> r[i] == if 32 * k <= i < 32 * k + 32 then w[i - 32 * k] else f[i]
  {
    f[..32 * k] + w + f[32 * k + 32..]
  }

  /** `mask_set_prefix_bits`. */
  method MaskSetPrefixBits(wc: FlowBits, fld: Field, nbits: nat) returns (r: FlowBits)
    requires nbits <= fld.bits
    ensures r == SetPrefix(wc, fld, nbits)
  {
    hide WithWord, Or, Ones, SetPrefix;
    r := wc;
    var i := 0;
    while i < nbits / 32
      invariant i <= nbits / 32
      invariant forall b :: 0 <= b < FLOW_BITS ==> r[b] == (wc[b] || 32 * fld.ofs <= b < 32 * (fld.ofs + i))
    {
      r := WithWord(r, fld.ofs + i, Ones(32, 32));
      i := i + 1;
    }
    if nbits % 32 != 0 {
      r := WithWord(r, fld.ofs + i, Or(Word(r, fld.ofs + i), Ones(nbits % 32, 32)));
    }
    assert forall b :: 0 <= b < FLOW_BITS ==> r[b] == SetPrefix(wc, fld, nbits)[b];
  }

  /** `mask_prefix_bits_set`. */
  method MaskPrefixBitsSet(wc: FlowBits, fld: Field, nbits: nat) returns (all: bool)
    requires nbits <= fld.bits
    ensures all == PrefixSet(wc, fld, nbits)
  {
    hide Or, And, Not, Ones;
    var zeroes := Zeros(32);
    var i := 0;
    while i < nbits / 32
      invariant i <= nbits / 32 && |zeroes| == 32
      invariant AllZero(zeroes) <==> PrefixSet(wc, fld, 32 * i)
    {
      var w := Word(wc, fld.ofs + i);
      OneMoreWord(wc, fld, 32 * i, 32, zeroes, Not(w));
      zeroes := Or(zeroes, Not(w));
      i := i + 1;
    }
    if nbits % 32 != 0 {
      var w := Word(wc, fld.ofs + i);
      OneMoreWord(wc, fld, 32 * i, nbits % 32, zeroes, And(Not(w), Ones(nbits % 32, 32)));
      zeroes := Or(zeroes, And(Not(w), Ones(nbits % 32, 32)));
    }
    all := zeroes == Zeros(32);
  }

  lemma OneMoreWord(wc: FlowBits, fld: Field, done: nat, n: nat, zeroes: Bits, more: Bits)
    requires n <= 32 && done % 32 == 0 && done + n <= fld.bits && |zeroes| == |more| == 32
    requires AllZero(zeroes) <==> PrefixSet(wc, fld, done)
    requires forall j :: 0 <= j < 32 ==> more[j] == (j < n && !wc[32 * fld.ofs + done + j])
    ensures AllZero(Or(zeroes, more)) <==> PrefixSet(wc, fld, done + n)
  {
    hide Or;
    assert AllZero(Or(zeroes, more)) <==> AllZero(zeroes) && AllZero(more) by {
      var o := Or(zeroes, more);
      if AllZero(o) {
        forall j | 0 <= j < 32 ensures !zeroes[j] && !more[j] { assert !o[j]; }
      }
    }
    if AllZero(more) {
      forall i | 32 * fld.ofs + done <= i < 32 * fld.ofs + done + n ensures wc[i] {
        assert !more[i - 32 * fld.ofs - done];
      }
    }
    if PrefixSet(wc, fld, done + n) {
      forall j | 0 <= j < 32 ensures !more[j] {}
    }
  }
}
