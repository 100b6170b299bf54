/**
 Netlink attributes as bytes: a length, a type, a payload, and padding to four bytes.
 */
module Netlink {
  type Byte = b: nat | b < 256

  const NLA_HDRLEN: nat := 4
  datatype Option<+T> = None | Some(value: T)

  function Align(n: nat): (r: nat)
    ensures n <= r < n + 4 && r % 4 == 0
  {
    (n + 3) / 4 * 4
  }

  /** Attributes at aligned offsets: the next one starts no later than the end, aligned. */
  lemma AlignNext(pos: nat, n: nat, end: nat)
    requires pos % 4 == 0 && pos + n <= end
    ensures (pos + Align(n)) % 4 == 0 && pos + Align(n) <= Align(end) && Align(4 + n) == 4 + Align(n)
  {
  }

  lemma Aligned(n: nat)
    requires n % 4 == 0
    ensures Align(n) == n
  {
  }

  function U16(b: seq<Byte>, i: nat): nat
    requires i + 2 <= |b|
  {
    var lo: nat, hi: nat := b[i], b[i + 1];
    lo + 256 * hi
  }

  function Bytes16(n: nat): (b: seq<Byte>)
    requires n < 65536
    ensures |b| == 2 && U16(b, 0) == n
  {
    [n % 256, n / 256]
  }

  function NlaLen(b: seq<Byte>, pos: nat): nat
    requires pos + 4 <= |b|
  {
    U16(b, pos)
  }

  /** The type without its two flag bits. */
  function NlaType(b: seq<Byte>, pos: nat): nat
    requires pos + 4 <= |b|
  {
    U16(b, pos + 2) % 16384
  }

  /** `nla_ok`. */
  predicate NlaOk(b: seq<Byte>, pos: nat) {
    pos + 4 <= |b| && 4 <= NlaLen(b, pos) <= |b| - pos
  }

  function Payload(b: seq<Byte>, pos: nat): seq<Byte>
    requires NlaOk(b, pos)
  {
    b[pos + 4..pos + NlaLen(b, pos)]
  }

  function Header(n: nat, kind: nat): (b: seq<Byte>)
    requires n < 65536 && kind < 65536
    ensures |b| == 4 && NlaLen(b, 0) == n && U16(b, 2) == kind
  {
    Bytes16(n) + Bytes16(kind)
  }

  /** Two attributes in a row: the second starts where the first, aligned, ends. */
  lemma AttrAt(pre: seq<Byte>, n: nat, kind: nat, p: seq<Byte>, post: seq<Byte>)
    requires n == 4 + |p| < 65536 && kind < 16384
    ensures var b := pre + (Header(n, kind) + p) + post;
            NlaOk(b, |pre|) && NlaLen(b, |pre|) == n && NlaType(b, |pre|) == kind && Payload(b, |pre|) == p
  {
    hide Header;
    var h := Header(n, kind);
    var b := pre + (h + p) + post;
    assert b[|pre|] == h[0] && b[|pre| + 1] == h[1] && b[|pre| + 2] == h[2] && b[|pre| + 3] == h[3];
  }

  function Zeros(n: nat): (z: seq<Byte>)
    ensures |z| == n
  {
    seq(n, i => 0)
  }

  /** `nla_put`, or a nest with these contents: the length has 16 bits. */
  function PutAttr(kind: nat, p: seq<Byte>): (b: seq<Byte>)
    ensures |b| == Align(4 + |p|)
  {
    Header((4 + |p|) % 65536, kind % 65536) + p + Zeros(Align(4 + |p|) - 4 - |p|)
  }

  lemma PutAttrAt(pre: seq<Byte>, kind: nat, p: seq<Byte>, post: seq<Byte>)
    requires 4 + |p| < 65536 && kind < 16384
    ensures var b := pre + PutAttr(kind, p) + post;
            NlaOk(b, |pre|) && NlaLen(b, |pre|) == 4 + |p| && NlaType(b, |pre|) == kind && Payload(b, |pre|) == p
  {
    hide Header, Align, PutAttr, Zeros;
    var z := Zeros(Align(4 + |p|) - 4 - |p|);
    AttrAt(pre, 4 + |p|, kind, p, z + post);
    ShortAttr(kind, p);
    assert pre + (Header(4 + |p|, kind) + p + z) + post == pre + (Header(4 + |p|, kind) + p) + (z + post);
  }

  lemma ShortAttr(kind: nat, p: seq<Byte>)
    requires 4 + |p| < 65536 && kind < 16384
    ensures PutAttr(kind, p) == Header(4 + |p|, kind) + p + Zeros(Align(4 + |p|) - 4 - |p|)
  {
    hide Header, Align, Zeros;
  }

  /** An attribute does not depend on what is before it. */
  lemma AttrShift(b: seq<Byte>, pos: nat)
    requires pos <= |b|
    ensures NlaOk(b[pos..], 0) == NlaOk(b, pos)
    ensures NlaOk(b, pos) ==> NlaLen(b[pos..], 0) == NlaLen(b, pos) && NlaType(b[pos..], 0) == NlaType(b, pos) && Payload(b[pos..], 0) == Payload(b, pos)
  {
    if pos + 4 <= |b| {
      var d := b[pos..];
      assert d[0] == b[pos] && d[1] == b[pos + 1] && d[2] == b[pos + 2] && d[3] == b[pos + 3];
    }
  }

  // ----- walks

  /** The attributes that `nla_for_each_attr` visits from 'pos' on: types and payloads. */
  function Attrs(b: seq<Byte>, pos: nat): (attrs: seq<(nat, seq<Byte>)>)
    ensures forall i :: 0 <= i < |attrs| ==> |attrs[i].1| + 4 <= |b|
    decreases |b| - pos
  {
    if NlaOk(b, pos) then [(NlaType(b, pos), Payload(b, pos))] + Attrs(b, pos + Align(NlaLen(b, pos))) else []
  }

  /** Where the walk ends; before the end of the bytes if some are left over. */
  function End(b: seq<Byte>, pos: nat): nat
    decreases |b| - pos
  {
    if NlaOk(b, pos) then End(b, pos + Align(NlaLen(b, pos))) else pos
  }

  predicate Has(attrs: seq<(nat, seq<Byte>)>, kind: nat) {
    exists i :: 0 <= i < |attrs| && attrs[i].0 == kind
  }

  /** 'v' is the payload of the last attribute of this type, or 'd' if there is none. */
  ghost predicate IsLast(attrs: seq<(nat, seq<Byte>)>, kind: nat, d: seq<Byte>, v: seq<Byte>) {
    || (!Has(attrs, kind) && v == d)
    || exists i :: 0 <= i < |attrs| && attrs[i] == (kind, v) && forall j :: i < j < |attrs| ==> attrs[j].0 != kind
  }

  /** A walk from its first attribute on. */
  lemma LastNext(a: (nat, seq<Byte>), rest: seq<(nat, seq<Byte>)>, kind: nat, d: seq<Byte>, v: seq<Byte>)
    requires IsLast(rest, kind, if a.0 == kind then a.1 else d, v)
    ensures IsLast([a] + rest, kind, d, v)
  {
    var attrs := [a] + rest;
    if !Has(rest, kind) {
      forall j | 1 <= j < |attrs| ensures attrs[j].0 != kind { assert attrs[j] == rest[j - 1]; }
      if a.0 == kind { assert attrs[0] == (kind, v); }
    } else {
      var i :| 0 <= i < |rest| && rest[i] == (kind, v) && forall j :: i < j < |rest| ==> rest[j].0 != kind;
      assert attrs[i + 1] == (kind, v);
      forall j | i + 1 < j < |attrs| ensures attrs[j].0 != kind { assert attrs[j] == rest[j - 1]; }
    }
  }

  lemma HasNext(a: (nat, seq<Byte>), rest: seq<(nat, seq<Byte>)>, kind: nat)
    ensures Has([a] + rest, kind) <==> a.0 == kind || Has(rest, kind)
  {
    var attrs := [a] + rest;
    assert attrs[0] == a;
    if Has(rest, kind) {
      var i :| 0 <= i < |rest| && rest[i].0 == kind;
      assert attrs[i + 1].0 == kind;
    }
  }
}
