/**
 Machine words as bit sequences, most significant bit first.  A bit offset into
 a multi-word value counts from the most significant bit of its first word, which
 is the numbering that `lib/classifier.c` uses for prefixes.
 */
module Bits {
  type Bits = seq<bool>

  const WORD_BITS: nat := 32

  function Zeros(n: nat): (z: Bits)
    ensures |z| == n && forall i :: 0 <= i < n ==> !z[i]
  {
    seq(n, _ => false)
  }

  function Shl(w: Bits, k: nat): (r: Bits)
    requires k <= |w|
    ensures |r| == |w| && forall i :: 0 <= i < |w| ==> r[i] == (i + k < |w| && w[i + k])
  {
    w[k..] + Zeros(k)
  }

  function Shr(w: Bits, k: nat): (r: Bits)
    requires k <= |w|
    ensures |r| == |w| && forall i :: 0 <= i < |w| ==> r[i] == (k <= i && w[i - k])
  {
    Zeros(k) + w[..|w| - k]
  }

  function Or(a: Bits, b: Bits): (r: Bits)
    requires |a| == |b|
    ensures |r| == |a| && forall i :: 0 <= i < |a| ==> r[i] == (a[i] || b[i])
  {
    seq(|a|, i requires 0 <= i < |a| => a[i] || b[i])
  }

  function And(a: Bits, b: Bits): (r: Bits)
    requires |a| == |b|
    ensures |r| == |a| && forall i :: 0 <= i < |a| ==> r[i] == (a[i] && b[i])
  {
    seq(|a|, i requires 0 <= i < |a| => a[i] && b[i])
  }

  function Xor(a: Bits, b: Bits): (r: Bits)
    requires |a| == |b|
    ensures |r| == |a| && forall i :: 0 <= i < |a| ==> r[i] == (a[i] != b[i])
  {
    seq(|a|, i requires 0 <= i < |a| => a[i] != b[i])
  }

  /** Ones in the 'n' most significant positions of a word of 'width' bits. */
  function Ones(n: nat, width: nat): (r: Bits)
    requires n <= width
    ensures |r| == width && forall i :: 0 <= i < width ==> r[i] == (i < n)
  {
    seq(width, i => i < n)
  }

  /** The number of leading zeros. */
  function Clz(w: Bits): (n: nat)
    ensures n <= |w|
    ensures forall i :: 0 <= i < n ==> !w[i]
    ensures n < |w| ==> w[n]
  {
    if w == [] || w[0] then 0 else
      1 + Clz(w[1..])
  }

  /** Word 'i' of a value made of whole words. */
  function Word(v: Bits, i: nat): (w: Bits)
    requires 32 * i + 32 <= |v|
    ensures |w| == 32 && forall j :: 0 <= j < 32 ==> w[j] == v[32 * i + j]
  {
    v[32 * i..32 * i + 32]
  }

  /** 'a' and 'b' agree on their first 'n' bits. */
  predicate SameUpTo(a: Bits, b: Bits, n: nat) {
    n <= |a| && n <= |b| && forall i :: 0 <= i < n ==> a[i] == b[i]
  }

  /** The number of leading bits in which 'a' and 'b' agree. */
  function Common(a: Bits, b: Bits): (n: nat)
    ensures n <= |a| && n <= |b|
    ensures SameUpTo(a, b, n)
    ensures n < |a| && n < |b| ==> a[n] != b[n]
  {
    if a == [] || b == [] || a[0] != b[0] then 0 else 1 + Common(a[1..], b[1..])
  }

  lemma {:induction false} CommonUnique(a: Bits, b: Bits, n: nat)
    requires SameUpTo(a, b, n)
    requires n < |a| && n < |b| ==> a[n] != b[n]
    ensures Common(a, b) == n
  {
    if n > 0 { CommonUnique(a[1..], b[1..], n - 1); }
  }
}
