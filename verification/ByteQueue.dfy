/** `lib/byteq.c`: a ring of bytes with free-running 32-bit counters that wrap around. */
module ByteQueue {
  type Byte = b: nat | b < 256

  /** The range of the counters. */
  const WRAP: nat := 0x1_0000_0000

  /** A power of two divides the range of the counters, so that masking and wrapping agree. */
  predicate SizeOk(size: nat) {
    0 < size <= 0x4000_0000 && WRAP % size == 0
  }

  function Minus(a: nat, b: nat): nat {
    (a - b) % WRAP
  }

  /** The place of a counter in a ring: a mask, for a power of two. */
  function Place(x: nat, size: nat): (p: nat)
    requires size > 0
    ensures p < size
  {
    x % size
  }

  /** A counter as 32 bits. */
  function Wrap(x: nat): (w: nat)
    ensures w < WRAP
  {
    x % WRAP
  }

  lemma WrapAdd(x: nat, n: nat)
    ensures Wrap(Wrap(x) + n) == Wrap(x + n)
  {
  }

  // ----- counters

  lemma Distribute(a: int, b: int, c: int)
    ensures (a + b) * c == a * c + b * c
  {
  }

  lemma AtLeastOne(n: int, size: nat)
    requires n >= 1
    ensures n * size >= size
  {
    Distribute(n - 1, 1, size);
    assert (n - 1) * size >= 0;
  }

  /** Quotient and remainder are unique. */
  lemma DivUnique(x: nat, q: int, r: nat, size: nat)
    requires size > 0 && x == q * size + r && r < size
    ensures x % size == r
  {
    var p, t := x / size, x % size;
    assert x == p * size + t;
    Distribute(q, -p, size);
    Distribute(p, -q, size);
    assert -p * size == -(p * size) && -q * size == -(q * size);
    if q > p { AtLeastOne(q - p, size); }
    if p > q { AtLeastOne(p - q, size); }
  }

  lemma AddMultiple(n: nat, size: nat, r: nat)
    requires size > 0
    ensures (n * size + r) % size == r % size
  {
    var p := r / size;
    assert r == p * size + r % size;
    Distribute(n, p, size);
    DivUnique(n * size + r, n + p, r % size, size);
  }

  /** A counter that has wrapped masks to the same place. */
  lemma WrapKeepsPlace(x: nat, size: nat)
    requires SizeOk(size)
    ensures Place(Wrap(x), size) == Place(x, size)
  {
    var q, k := x / WRAP, WRAP / size;
    assert WRAP == k * size;
    assert x == q * WRAP + x % WRAP;
    assert q * (k * size) == (q * k) * size;
    AddMultiple(q * k, size, x % WRAP);
  }

  /** Places less than a ring apart are different. */
  lemma PlacesDiffer(i: nat, j: nat, size: nat)
    requires size > 0 && i < j < i + size
    ensures Place(i, size) != Place(j, size)
  {
    var a := i / size;
    assert i == a * size + i % size;
    if i % size + (j - i) < size {
      DivUnique(j, a, i % size + (j - i), size);
    } else {
      Distribute(a, 1, size);
      DivUnique(j, a + 1, i % size + (j - i) - size, size);
    }
  }

  /** The difference of two wrapped counters is their distance. */
  lemma WrappedDistance(head: nat, tail: nat)
    requires tail <= head < tail + WRAP
    ensures Minus(Wrap(head), Wrap(tail)) == head - tail
  {
  }

  /** Going on inside the ring. */
  lemma PlaceAfter(x: nat, n: nat, size: nat)
    requires size > 0 && Place(x, size) + n < size
    ensures Place(x + n, size) == Place(x, size) + n
  {
    var q := x / size;
    assert x == q * size + x % size;
    DivUnique(x + n, q, x % size + n, size);
  }

  // ----- the ring

  /** 'n' bytes of the ring from counter 'from' on. */
  function Ring(buf: seq<Byte>, from: nat, n: nat): (r: seq<Byte>)
    requires buf != []
    ensures |r| == n
  {
    seq(n, i requires 0 <= i < n => buf[Place(from + i, |buf|)])
  }

  lemma RingSplit(buf: seq<Byte>, from: nat, n: nat, m: nat)
    requires buf != []
    ensures Ring(buf, from, n + m) == Ring(buf, from, n) + Ring(buf, from + n, m)
  {
    hide Place;
    var r, s := Ring(buf, from, n + m), Ring(buf, from, n) + Ring(buf, from + n, m);
    forall i | 0 <= i < n + m ensures r[i] == s[i] {
      if i >= n { assert from + n + (i - n) == from + i; }
    }
  }

  /** What does not wrap is a slice of the buffer. */
  lemma RingStraight(buf: seq<Byte>, from: nat, n: nat)
    requires buf != [] && Place(from, |buf|) + n <= |buf|
    ensures Ring(buf, from, n) == buf[Place(from, |buf|)..Place(from, |buf|) + n]
  {
    hide Place;
    var p := Place(from, |buf|);
    forall i | 0 <= i < n ensures Ring(buf, from, n)[i] == buf[p..p + n][i] { PlaceAfter(from, i, |buf|); }
  }

  /** Free places can be written without touching what is queued. */
  lemma RingFrame(buf: seq<Byte>, buf': seq<Byte>, from: nat, n: nat, m: nat)
    requires buf != [] && |buf'| == |buf| && n + m <= |buf| && Place(from + n, |buf|) + m <= |buf|
    requires var h := Place(from + n, |buf|); forall p :: 0 <= p < |buf| && !(h <= p < h + m) ==> buf'[p] == buf[p]
    ensures Ring(buf', from, n) == Ring(buf, from, n)
  {
    hide Place;
    forall i | 0 <= i < n ensures Ring(buf', from, n)[i] == Ring(buf, from, n)[i] {
      NotInGap(from, i, n, m, |buf|);
    }
  }

  lemma NotInGap(from: nat, i: nat, n: nat, m: nat, size: nat)
    requires size > 0 && i < n && n + m <= size && Place(from + n, size) + m <= size
    ensures var h := Place(from + n, size); !(h <= Place(from + i, size) < h + m)
  {
    hide Place;
    var h, q := Place(from + n, size), Place(from + i, size);
    if h <= q < h + m {
      PlaceAfter(from + n, q - h, size);
      PlacesDiffer(from + i, from + n + (q - h), size);
    }
  }

  class Queue {
    const size: nat
    const buffer: array<Byte>
    var head: nat
    var tail: nat
    /** How many bytes ever went in and out. */
    ghost var put: nat
    ghost var got: nat

    ghost predicate Valid()
      reads this
    {
      && SizeOk(size) && buffer.Length == size
      && head == Wrap(put) && tail == Wrap(got) && got <= put <= got + size
    }

    /** The bytes queued, oldest first. */
    ghost function Contents(): seq<Byte>
      requires Valid()
      reads this, buffer
    {
      Ring(buffer[..], got, put - got)
    }

    /** `byteq_init`. */
    constructor (size: nat, buffer: array<Byte>)
      requires SizeOk(size) && buffer.Length == size
      ensures Valid() && Contents() == [] && this.size == size && this.buffer == buffer && put == got == 0
    {
      this.size, this.buffer, head, tail, put, got := size, buffer, 0, 0, 0, 0;
    }

    /** `byteq_used`. */
    function Used(): (n: nat)
      requires Valid()
      reads this
      ensures n == put - got
    {
      WrappedDistance(put, got);
      Minus(head, tail)
    }

    /** `byteq_headroom`: free bytes up to the end of the ring or of the free space. */
    function Headroom(): (n: nat)
      requires Valid()
      reads this
      ensures n <= size - (put - got) && Place(put, size) + n <= size && (put - got < size ==> n > 0)
    {
      WrapKeepsPlace(put, size);
      var avail, toEnd := size - Used(), size - Place(head, size);
      if avail <= toEnd then avail else toEnd
    }

    /** `byteq_tailroom`: used bytes up to the end of the ring or of the used space. */
    function Tailroom(): (n: nat)
      requires Valid()
      reads this
      ensures n == if put - got <= size - Place(got, size) then put - got else size - Place(got, size)
    {
      WrapKeepsPlace(got, size);
      var used, toEnd := Used(), size - Place(tail, size);
      if used <= toEnd then used else toEnd
    }

    /** `byteq_advance_head`: the bytes that were stored after the head are queued. */
    method AdvanceHead(n: nat)
      requires Valid() && n <= Headroom()
      modifies this
      ensures Valid() && put == old(put) + n && got == old(got) && tail == old(tail)
      ensures Contents() == old(Contents()) + buffer[Place(old(put), size)..Place(old(put), size) + n]
    {
      hide Place, Wrap, Ring;
      RingSplit(buffer[..], got, put - got, n);
      RingStraight(buffer[..], put, n);
      WrapAdd(put, n);
      head, put := Wrap(head + n), put + n;
    }

    /** `byteq_advance_tail`. */
    method AdvanceTail(n: nat)
      requires Valid() && n <= Tailroom()
      modifies this
      ensures Valid() && got == old(got) + n && put == old(put) && head == old(head)
      ensures n <= |old(Contents())| && Contents() == old(Contents())[n..]
    {
      hide Place, Wrap, Ring;
      RingSplit(buffer[..], got, n, put - got - n);
      WrapAdd(got, n);
      tail, got := Wrap(tail + n), got + n;
    }

    /** The copy to the head: 'p' is stored after the queued bytes, which stay. */
    method Store(p: seq<Byte>)
      requires Valid() && |p| <= Headroom()
      modifies buffer
      ensures Contents() == old(Contents()) && buffer[Place(put, size)..Place(put, size) + |p|] == p
      ensures forall i :: 0 <= i < size && !(Place(put, size) <= i < Place(put, size) + |p|) ==> buffer[i] == old(buffer[i])
    {
      hide Place, Wrap, Ring;
      WrapKeepsPlace(put, size);
      var h := Place(head, size);
      forall i | 0 <= i < |p| { buffer[h + i] := p[i]; }
      RingFrame(old(buffer[..]), buffer[..], got, put - got, |p|);
    }

    /** `byteq_put`. */
    method Put(c: Byte)
      requires Valid() && Used() < size
      modifies this, buffer
      ensures Valid() && Contents() == old(Contents()) + [c]
    {
      hide Ring, Place, Wrap;
      Store([c]);
      AdvanceHead(1);
    }

    /** `byteq_putn`: in two pieces if it wraps. */
    method Putn(p: seq<Byte>)
      requires Valid() && |p| <= size - Used()
      modifies this, buffer
      ensures Valid() && Contents() == old(Contents()) + p
    {
      hide Ring, Place, Wrap;
      var i := 0;
      while i < |p|
        invariant Valid() && i <= |p| && |p| - i <= size - Used()
        invariant Contents() == old(Contents()) + p[..i]
      {
        var chunk := if |p| - i <= Headroom() then |p| - i else Headroom();
        Store(p[i..i + chunk]);
        AdvanceHead(chunk);
        assert p[..i] + p[i..i + chunk] == p[..i + chunk];
        i := i + chunk;
      }
      assert p[..i] == p;
    }

    /** `byteq_get`. */
    method Get() returns (c: Byte)
      requires Valid() && Used() > 0
      modifies this
      ensures Valid() && old(Contents()) == [c] + Contents()
    {
      hide Wrap, Place;
      WrapKeepsPlace(got, size);
      c := buffer[Place(tail, size)];
      RingSplit(buffer[..], got, 1, put - got - 1);
      WrapAdd(got, 1);
      tail, got := Wrap(tail + 1), got + 1;
    }
  }
}
