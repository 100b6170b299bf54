/** The Internet checksum of `lib/csum.c` (RFC 1071), and its update by equation 3 of RFC 1624. */
module Csum {
  type Byte = b: nat | b < 256
  type U16 = x: nat | x < 0x1_0000
  type U32 = x: nat | x < 0x1_0000_0000

  const ONES: nat := 0xffff

  /** The 16-bit words of the data, as a little-endian machine reads them; an odd byte is a word. */
  function Words(data: seq<Byte>): (w: seq<U16>)
    ensures |w| == (|data| + 1) / 2
  {
    if data == [] then []
    else if |data| == 1 then [data[0]]
    else [Word(data[0], data[1])] + Words(data[2..])
  }

  function Word(lo: Byte, hi: Byte): U16 {
    var l: nat, h: nat := lo, hi;
    l + 256 * h
  }

  function Sum(w: seq<U16>): nat {
    if w == [] then 0 else w[0] + Sum(w[1..])
  }

  /** The ones-complement value of a sum: zero only for zero, else between 1 and 65535. */
  function Fold(s: nat): (f: nat)
    ensures f <= ONES && (f == 0 <==> s == 0) && f % ONES == s % ONES
  {
    if s == 0 then 0 else (s - 1) % ONES + 1
  }

  /** The checksum of data: the complement of the folded sum of its words. */
  function Checksum(w: seq<U16>): U16 {
    ONES - Fold(Sum(w))
  }

  lemma FoldUnique(s: nat, f: nat)
    requires f <= ONES && f % ONES == s % ONES && (f == 0 <==> s == 0)
    ensures f == Fold(s)
  {
  }

  // ----- the loops

  /** What 32 bits keep of a number. */
  function Wrap32(x: nat): U32 {
    x % 0x1_0000_0000
  }

  lemma WrapAdd(x: nat, y: nat)
    ensures Wrap32(Wrap32(x) + y) == Wrap32(x + y)
  {
  }

  /** `csum_continue`: 32-bit addition of all words. */
  method CsumContinue(partial: U32, data: seq<Byte>) returns (r: U32)
    ensures r == Wrap32(partial + Sum(Words(data)))
  {
    hide Wrap32, Sum, Words, Word;
    r := partial;
    var i := 0;
    assert data[0..] == data;
    while i + 1 < |data|
      invariant i <= |data|
      invariant Wrap32(r + Sum(Words(data[i..]))) == Wrap32(partial + Sum(Words(data)))
    {
      var w := Word(data[i], data[i + 1]);
      NextWord(r, data, i);
      r := Wrap32(r + w);
      i := i + 2;
    }
    LastByte(r, data, i);
    if i < |data| {
      r := Wrap32(r + data[i]);
    }
  }

  lemma NextWord(p: U32, data: seq<Byte>, i: nat)
    requires i + 1 < |data|
    ensures Wrap32(p + Sum(Words(data[i..]))) == Wrap32(Wrap32(p + Word(data[i], data[i + 1])) + Sum(Words(data[i + 2..])))
  {
    hide Wrap32, Word;
    var w, rest := Word(data[i], data[i + 1]), Words(data[i + 2..]);
    assert data[i..][2..] == data[i + 2..];
    assert Words(data[i..]) == [w] + rest && ([w] + rest)[1..] == rest;
    WrapAdd(p + w, Sum(rest));
  }

  lemma LastByte(p: U32, data: seq<Byte>, i: nat)
    requires i <= |data| <= i + 1
    ensures Wrap32(p + Sum(Words(data[i..]))) == if i < |data| then Wrap32(p + data[i]) else p
  {
    if i < |data| {
      assert data[i..] == [data[i]];
      assert Words(data[i..])[1..] == [];
    }
  }

  /** `csum_finish`: carries are added back until none is left. */
  method CsumFinish(partial: U32) returns (r: U16)
    ensures r == ONES - Fold(partial)
  {
    hide Fold;
    var p: nat := partial;
    while p / 0x1_0000 != 0
      invariant Fold(p) == Fold(partial)
      decreases p
    {
      FoldStep(p);
      p := p % 0x1_0000 + p / 0x1_0000;
    }
    FoldSmall(p);
    r := ONES - p;
  }

  lemma FoldStep(p: nat)
    ensures Fold(p % 0x1_0000 + p / 0x1_0000) == Fold(p)
  {
    FoldUnique(p, Fold(p % 0x1_0000 + p / 0x1_0000));
  }

  lemma FoldSmall(p: nat)
    requires p < 0x1_0000
    ensures Fold(p) == p
  {
  }

  lemma {:induction false} SumBound(w: seq<U16>)
    ensures Sum(w) <= ONES * |w|
    ensures Sum(w) > 0 <==> exists i :: 0 <= i < |w| && w[i] != 0
  {
    if w != [] {
      SumBound(w[1..]);
      if Sum(w[1..]) > 0 {
        var i :| 0 <= i < |w[1..]| && w[1..][i] != 0;
        assert w[i + 1] != 0;
      }
      if Sum(w[1..]) == 0 { assert forall i :: 0 < i < |w| ==> w[1..][i - 1] == w[i]; }
    }
  }

  /** The 32-bit sum loses no carry, or loses a multiple of 65535 of them and is not left at zero. */
  predicate Survives(s: nat) {
    s < 0x1_0000_0000 || (s / 0x1_0000_0000 % ONES == 0 && Wrap32(s) != 0)
  }

  /** When a sum that has lost its carries out of 32 bits still folds to the same value. */
  lemma OverflowExact(s: nat)
    ensures Fold(Wrap32(s)) == Fold(s) <==> Survives(s)
  {
    hide Fold, Wrap32;
    var q, r := s / 0x1_0000_0000, Wrap32(s);
    CarriesLost(s);
    if Fold(r) == Fold(s) && q > 0 { SameRemainder(q, r); }
    if q % ONES == 0 && r != 0 {
      SameRemainder(q, r);
      FoldUnique(s, Fold(r));
    }
  }

  lemma CarriesLost(s: nat)
    ensures s % ONES == (s / 0x1_0000_0000 + Wrap32(s)) % ONES
    ensures s < 0x1_0000_0000 <==> s / 0x1_0000_0000 == 0
    ensures s < 0x1_0000_0000 ==> Wrap32(s) == s
  {
    var q, r := s / 0x1_0000_0000, Wrap32(s);
    assert s == (q * 65537) * ONES + (q + r);
  }

  lemma SameRemainder(q: nat, r: nat)
    ensures (q + r) % ONES == r % ONES <==> q % ONES == 0
  {
  }

  /**
   `csum`: the Internet checksum if and only if the 32-bit sum survives, which it does for
   all data up to 131074 bytes.
   */
  method CsumOf(data: seq<Byte>) returns (r: U16)
    ensures r == ONES - Fold(Wrap32(Sum(Words(data))))
    ensures r == Checksum(Words(data)) <==> Survives(Sum(Words(data)))
    ensures |data| <= 131074 ==> r == Checksum(Words(data))
  {
    hide Fold, Sum, Wrap32, Survives;
    var p := CsumContinue(0, data);
    r := CsumFinish(p);
    OverflowExact(Sum(Words(data)));
    if |data| <= 131074 { ShortSurvives(data); }
  }

  lemma ShortSurvives(data: seq<Byte>)
    requires |data| <= 131074
    ensures Survives(Sum(Words(data)))
  {
    hide Sum, Words, Survives, Wrap32;
    SumBound(Words(data));
    SmallSurvives(Sum(Words(data)), |Words(data)|);
  }

  lemma SmallSurvives(s: nat, n: nat)
    requires n <= 65537 && s <= ONES * n
    ensures Survives(s)
  {
    hide Wrap32;
    assert s <= ONES * 65537;
  }

  /** Bytes of all ones. */
  function Ones(n: nat): (data: seq<Byte>)
    ensures |data| == n
  {
    if n == 0 then [] else [255] + Ones(n - 1)
  }

  lemma {:induction false} SumOfOnes(n: nat)
    ensures Sum(Words(Ones(2 * n))) == ONES * n
  {
    if n > 0 {
      SumOfOnes(n - 1);
      var rest := Ones(2 * (n - 1));
      OnesTwice(2 * (n - 1));
      assert ([255, 255] + rest)[2..] == rest;
      assert Words([255, 255] + rest) == [0xffff] + Words(rest);
      assert ([0xffff] + Words(rest))[1..] == Words(rest);
    }
  }

  lemma OnesTwice(n: nat)
    ensures Ones(n + 2) == [255, 255] + Ones(n)
  {
    assert Ones(n + 2) == [255] + Ones(n + 1);
  }

  /** Two bytes more than the bound are too many: 131076 bytes of ones have another checksum. */
  lemma OverflowHappens()
    ensures |Ones(131076)| == 131076 && !Survives(Sum(Words(Ones(131076))))
  {
    hide Sum, Words, Ones;
    SumOfOnes(65538);
    assert Sum(Words(Ones(131076))) == 0x1_0000_0000 + 65534;
  }

  // ----- bytes

  /** The bytes from 'i' on, those in odd places weighted by 256. */
  function Weighted(data: seq<Byte>, i: nat): nat
    decreases |data| - i
  {
    if i >= |data| then 0 else
      var b: nat := data[i];
      b * (if i % 2 == 0 then 1 else 256) + Weighted(data, i + 1)
  }

  /** The sum of the words is the sum of the bytes, those in odd places weighted by 256. */
  lemma {:induction false} SumOfBytes(data: seq<Byte>, i: nat)
    requires i <= |data| && i % 2 == 0
    ensures Sum(Words(data[i..])) == Weighted(data, i)
    decreases |data| - i
  {
    if i + 1 < |data| {
      SumOfBytes(data, i + 2);
      var w, rest := Word(data[i], data[i + 1]), Words(data[i + 2..]);
      assert data[i..][2..] == data[i + 2..];
      assert Words(data[i..]) == [w] + rest && ([w] + rest)[1..] == rest;
    } else if i < |data| {
      assert data[i..] == [data[i]];
      assert Words([data[i]])[1..] == [];
    }
  }

  lemma {:induction false} WordsConcat(a: seq<Byte>, b: seq<Byte>)
    requires |a| % 2 == 0
    ensures Words(a + b) == Words(a) + Words(b)
    decreases |a|
  {
    if a == [] {
      assert a + b == b;
    } else {
      hide Word;
      WordsConcat(a[2..], b);
      assert (a + b)[2..] == a[2..] + b && (a + b)[0] == a[0] && (a + b)[1] == a[1];
    }
  }

  lemma {:induction false} SumConcat(a: seq<U16>, b: seq<U16>)
    ensures Sum(a + b) == Sum(a) + Sum(b)
  {
    if a == [] {
      assert a + b == b;
    } else {
      SumConcat(a[1..], b);
      assert (a + b)[1..] == a[1..] + b;
    }
  }

  /** What a receiver relies on: data followed by its own checksum, low byte first, has checksum 0. */
  lemma ChecksumVerifies(data: seq<Byte>)
    requires |data| % 2 == 0
    ensures Checksum(Words(data + LowFirst(Checksum(Words(data))))) == 0
  {
    hide Fold, Sum, Words, LowFirst;
    var c := Checksum(Words(data));
    var tail := LowFirst(c);
    WordsConcat(data, tail);
    SumConcat(Words(data), Words(tail));
    TailSum(c);
    FoldComplement(Sum(Words(data)));
  }

  function LowFirst(c: U16): seq<Byte> {
    [c % 256, c / 256]
  }

  lemma TailSum(c: U16)
    ensures Sum(Words(LowFirst(c))) == c
  {
    var tail := LowFirst(c);
    assert tail[2..] == [];
    assert Words(tail) == [Word(c % 256, c / 256)];
  }

  lemma FoldComplement(s: nat)
    ensures Fold(s + (ONES - Fold(s))) == ONES
  {
    FoldUnique(s + (ONES - Fold(s)), ONES);
  }

  // ----- incremental update

  /** Equation 3 of RFC 1624. */
  function Update(c: U16, was: U16, now: U16): U16 {
    ONES - Fold((ONES - c) + (ONES - was) + now)
  }

  /** `recalc_csum16`. */
  method Recalc16(c: U16, was: U16, now: U16) returns (r: U16)
    ensures r == Update(c, was, now)
  {
    hide Fold;
    var sum: nat := (ONES - c) + (ONES - was) + now;
    r := CsumFinish(sum);
  }

  /** 'c' is a checksum for 'w': congruent to the true one, and all ones only for a zero sum. */
  predicate Stands(c: U16, w: seq<U16>) {
    (ONES - c) % ONES == Sum(w) % ONES && (c == ONES ==> Sum(w) == 0)
  }

  lemma ChecksumStands(w: seq<U16>)
    ensures Stands(Checksum(w), w)
  {
    hide Sum;
  }

  /** Both representations of a checksum agree unless the sum is zero. */
  lemma StandsIsChecksum(c: U16, w: seq<U16>)
    requires Stands(c, w) && Sum(w) > 0
    ensures c == Checksum(w)
  {
    hide Sum, Fold;
    FoldUnique(Sum(w), ONES - c);
  }

  lemma {:induction false} SumUpdate(w: seq<U16>, i: nat, now: U16)
    requires i < |w|
    ensures Sum(w[i := now]) == Sum(w) - w[i] + now && w[i] <= Sum(w)
  {
    if i == 0 {
      assert w[0 := now][1..] == w[1..];
    } else {
      SumUpdate(w[1..], i - 1, now);
      assert w[i := now][1..] == w[1..][i - 1 := now];
    }
  }

  /** An updated checksum stands for the updated data, and is never all ones. */
  lemma UpdateStands(c: U16, w: seq<U16>, i: nat, now: U16)
    requires Stands(c, w) && i < |w|
    ensures Stands(Update(c, w[i], now), w[i := now]) && Update(c, w[i], now) != ONES
  {
    hide Sum;
    SumUpdate(w, i, now);
    var s := (ONES - c) + (ONES - w[i]) + now;
    assert s > 0;
    assert s % ONES == Sum(w[i := now]) % ONES;
  }

  /**
   Incremental update of one word: the result is the checksum of the changed data if and
   only if that data has a nonzero word, and is congruent to it always.
   */
  lemma Recalc16Exact(w: seq<U16>, i: nat, now: U16)
    requires i < |w|
    ensures var r, w' := Update(Checksum(w), w[i], now), w[i := now];
            && (r == Checksum(w') <==> exists k :: 0 <= k < |w'| && w'[k] != 0)
            && r % ONES == Checksum(w') % ONES
  {
    hide Sum, Fold, Update, Stands;
    ChecksumStands(w);
    UpdateStands(Checksum(w), w, i, now);
    Exactly(Update(Checksum(w), w[i], now), w[i := now]);
  }

  lemma Exactly(r: U16, w: seq<U16>)
    requires Stands(r, w) && r != ONES
    ensures r == Checksum(w) <==> exists k :: 0 <= k < |w| && w[k] != 0
    ensures r % ONES == Checksum(w) % ONES
  {
    hide Sum;
    SumBound(w);
    if Sum(w) > 0 { StandsIsChecksum(r, w); }
  }

  /** The low and the high half of a 32-bit value, as its words lie in memory. */
  function Low(x: U32): U16 {
    x % 0x1_0000
  }

  function High(x: U32): U16 {
    x / 0x1_0000
  }

  function Update32(c: U16, was: U32, now: U32): U16 {
    Update(Update(c, Low(was), Low(now)), High(was), High(now))
  }

  /** `recalc_csum32`. */
  method Recalc32(c: U16, was: U32, now: U32) returns (r: U16)
    ensures r == Update32(c, was, now)
  {
    r := Recalc16(c, Low(was), Low(now));
    r := Recalc16(r, High(was), High(now));
  }

  /** The data with the 32-bit field at word 'i' set to 'x'. */
  function Set32(w: seq<U16>, i: nat, x: U32): (w': seq<U16>)
    requires i + 1 < |w|
    ensures |w'| == |w|
  {
    w[i := Low(x)][i + 1 := High(x)]
  }

  predicate Is32(w: seq<U16>, i: nat, x: U32) {
    i + 1 < |w| && w[i] == Low(x) && w[i + 1] == High(x)
  }

  lemma Update32Stands(c: U16, w: seq<U16>, i: nat, was: U32, now: U32)
    requires Stands(c, w) && Is32(w, i, was)
    ensures Stands(Update32(c, was, now), Set32(w, i, now)) && Update32(c, was, now) != ONES
  {
    hide Sum, Stands, Update, Low, High;
    var w1 := w[i := Low(now)];
    UpdateStands(c, w, i, Low(now));
    UpdateStands(Update(c, w[i], Low(now)), w1, i + 1, High(now));
    assert w1[i + 1] == w[i + 1];
  }

  lemma Recalc32Exact(w: seq<U16>, i: nat, was: U32, now: U32)
    requires Is32(w, i, was)
    ensures var r, w' := Update32(Checksum(w), was, now), Set32(w, i, now);
            && (r == Checksum(w') <==> exists k :: 0 <= k < |w'| && w'[k] != 0)
            && r % ONES == Checksum(w') % ONES
  {
    hide Sum, Fold, Stands, Update32, Low, High, Set32;
    ChecksumStands(w);
    Update32Stands(Checksum(w), w, i, was, now);
    Exactly(Update32(Checksum(w), was, now), Set32(w, i, now));
  }

  /** The data with 'k' 32-bit fields from word 'i' on set. */
  function SetAll(w: seq<U16>, i: nat, xs: seq<U32>, k: nat): (w': seq<U16>)
    requires k <= |xs| && i + 2 * |xs| <= |w|
    ensures |w'| == |w| && forall j :: i + 2 * k <= j < |w| ==> w'[j] == w[j]
  {
    if k == 0 then w else Set32(SetAll(w, i, xs, k - 1), i + 2 * (k - 1), xs[k - 1])
  }

  /**
   `recalc_csum128`: the four updates together give the checksum of the changed data, if and
   only if that data has a nonzero word.
   */
  method Recalc128(c: U16, was: seq<U32>, now: seq<U32>, ghost w: seq<U16>, ghost i: nat) returns (r: U16)
    requires |was| == |now| == 4 && i + 8 <= |w| && c == Checksum(w)
    requires forall k :: 0 <= k < 4 ==> Is32(w, i + 2 * k, was[k])
    ensures var w' := SetAll(w, i, now, 4);
            && (r == Checksum(w') <==> exists k :: 0 <= k < |w'| && w'[k] != 0)
            && r % ONES == Checksum(w') % ONES
  {
    hide Sum, Fold, Stands, Update32, Low, High, Set32;
    r := c;
    ChecksumStands(w);
    for k := 0 to 4
      invariant Stands(r, SetAll(w, i, now, k)) && (k > 0 ==> r != ONES)
    {
      assert Is32(w, i + 2 * k, was[k]);
      Update32Stands(r, SetAll(w, i, now, k), i + 2 * k, was[k], now[k]);
      r := Recalc32(r, was[k], now[k]);
    }
    Exactly(r, SetAll(w, i, now, 4));
  }
}
