/**
 Tunnel keys of `datapath/flow_netlink.c`: nested Netlink attributes in any order, and the
 internal structure that the datapath keeps of them.
 */
module TunnelKey {
  import opened Netlink

  const TUN_KEY_SIZE: nat := 24

  const TUNNEL_ID: nat := 0
  const TUNNEL_SRC: nat := 1
  const TUNNEL_DST: nat := 2
  const TUNNEL_TOS: nat := 3
  const TUNNEL_TTL: nat := 4
  const TUNNEL_DONT_FRAGMENT: nat := 5
  const TUNNEL_CSUM: nat := 6

  const ZERO4: seq<Byte> := [0, 0, 0, 0]
  const ZERO8: seq<Byte> := [0, 0, 0, 0, 0, 0, 0, 0]

  /** The bytes of `struct ovs_key_ipv4_tunnel`. */
  type TunnelInfo = s: seq<Byte> | |s| == TUN_KEY_SIZE witness ZERO8 + ZERO8 + ZERO8

  /** Its fields, with the three bits of `tun_flags`. */
  datatype Fields = Fields(id: seq<Byte>, src: seq<Byte>, dst: seq<Byte>, hasId: bool, dontFragment: bool, csum: bool, tos: Byte, ttl: Byte)

  const NO_KEY: Fields := Fields(ZERO8, ZERO4, ZERO4, false, false, false, 0, 0)

  type Key = k: Fields | |k.id| == 8 && |k.src| == 4 && |k.dst| == 4 witness NO_KEY

  function Bit(on: bool, value: Byte): Byte {
    if on then value else 0
  }

  function ToBytes(k: Key): TunnelInfo {
    k.id + k.src + k.dst + [Bit(k.dontFragment, 1), Bit(k.hasId, 4) + Bit(k.csum, 1), k.tos, k.ttl] + ZERO4
  }

  function FromBytes(s: TunnelInfo): Key {
    Fields(s[..8], s[8..12], s[12..16], s[17] / 4 % 2 == 1, s[16] % 2 == 1, s[17] % 2 == 1, s[18], s[19])
  }

  lemma BytesRoundTrip(k: Key)
    ensures FromBytes(ToBytes(k)) == k
  {
    var s := ToBytes(k);
    assert s[..8] == k.id && s[8..12] == k.src && s[12..16] == k.dst;
  }

  // ----- reading

  /** One attribute of a key: the length must fit the type, and a later one replaces an earlier one. */
  function ReadOne(kind: nat, p: seq<Byte>, k: Key): (r: Option<Key>) {
    if kind == TUNNEL_ID && |p| == 8 then Some(k.(id := p, hasId := true))
    else if kind == TUNNEL_SRC && |p| == 4 then Some(k.(src := p))
    else if kind == TUNNEL_DST && |p| == 4 then Some(k.(dst := p))
    else if kind == TUNNEL_TOS && |p| == 1 then Some(k.(tos := p[0]))
    else if kind == TUNNEL_TTL && |p| == 1 then Some(k.(ttl := p[0]))
    else if kind == TUNNEL_DONT_FRAGMENT && p == [] then Some(k.(dontFragment := true))
    else if kind == TUNNEL_CSUM && p == [] then Some(k.(csum := true))
    else None
  }

  /** The key in 'b' from 'pos' on, after the attributes that gave 'k'. */
  function ReadFrom(b: seq<Byte>, pos: nat, k: Key, hasTtl: bool): (r: Option<Key>)
    decreases |b| - pos
  {
    if NlaOk(b, pos) then
      match ReadOne(NlaType(b, pos), Payload(b, pos), k)
      case None => None
      case Some(next) => ReadFrom(b, pos + Align(NlaLen(b, pos)), next, hasTtl || NlaType(b, pos) == TUNNEL_TTL)
    else if pos < |b| || k.dst == ZERO4 || !hasTtl then None
    else Some(k)
  }

  function ReadInfo(b: seq<Byte>): (r: Option<TunnelInfo>) {
    match ReadFrom(b, 0, NO_KEY, false)
    case None => None
    case Some(k) => Some(ToBytes(k))
  }

  /** `ipv4_tun_from_nlattr`, for a key that is not a mask. */
  method ReadTunnel(b: seq<Byte>) returns (r: Option<TunnelInfo>)
    ensures r == ReadInfo(b)
    ensures LegalKey(b) ==> exists k: Key :: Describes(Attrs(b, 0), NO_KEY, k) && r == if Complete(b, k) then Some(ToBytes(k)) else None
    ensures !LegalKey(b) ==> r == None
  {
    ReadInfoMeans(b);
    hide ReadOne, LegalKey, Describes, Complete, ToBytes, Align, Payload, NlaType;
    var k: Key, hasTtl, pos: nat := NO_KEY, false, 0;
    while NlaOk(b, pos)
      invariant ReadFrom(b, pos, k, hasTtl) == ReadFrom(b, 0, NO_KEY, false)
      decreases |b| - pos
    {
      var next := ReadOne(NlaType(b, pos), Payload(b, pos), k);
      if next == None {
        return None;
      }
      hasTtl := hasTtl || NlaType(b, pos) == TUNNEL_TTL;
      k, pos := next.value, pos + Align(NlaLen(b, pos));
    }
    if pos < |b| || k.dst == ZERO4 || !hasTtl {
      return None;
    }
    r := Some(ToBytes(k));
  }

  // ----- what was read

  /** The lengths that `ovs_tunnel_key_lens` asks for. */
  predicate Legal(a: (nat, seq<Byte>)) {
    a.0 <= TUNNEL_CSUM && |a.1| == [8, 4, 4, 1, 1, 0, 0][a.0]
  }

  /** 'k' has the fields of 'was' except where an attribute gives another: the last one of each kind. */
  ghost predicate Describes(attrs: seq<(nat, seq<Byte>)>, was: Key, k: Key) {
    && IsLast(attrs, TUNNEL_ID, was.id, k.id) && k.hasId == (was.hasId || Has(attrs, TUNNEL_ID))
    && IsLast(attrs, TUNNEL_SRC, was.src, k.src) && IsLast(attrs, TUNNEL_DST, was.dst, k.dst)
    && IsLast(attrs, TUNNEL_TOS, [was.tos], [k.tos]) && IsLast(attrs, TUNNEL_TTL, [was.ttl], [k.ttl])
    && k.dontFragment == (was.dontFragment || Has(attrs, TUNNEL_DONT_FRAGMENT)) && k.csum == (was.csum || Has(attrs, TUNNEL_CSUM))
  }

  lemma DescribesNext(a: (nat, seq<Byte>), rest: seq<(nat, seq<Byte>)>, was: Key, next: Key, k: Key)
    requires ReadOne(a.0, a.1, was) == Some(next) && Describes(rest, next, k)
    ensures Describes([a] + rest, was, k)
  {
    hide IsLast, Has;
    assert a.0 == TUNNEL_TOS ==> a.1 == [next.tos];
    assert a.0 == TUNNEL_TTL ==> a.1 == [next.ttl];
    LastNext(a, rest, TUNNEL_ID, was.id, k.id);
    LastNext(a, rest, TUNNEL_SRC, was.src, k.src);
    LastNext(a, rest, TUNNEL_DST, was.dst, k.dst);
    LastNext(a, rest, TUNNEL_TOS, [was.tos], [k.tos]);
    LastNext(a, rest, TUNNEL_TTL, [was.ttl], [k.ttl]);
    HasNext(a, rest, TUNNEL_ID);
    HasNext(a, rest, TUNNEL_DONT_FRAGMENT);
    HasNext(a, rest, TUNNEL_CSUM);
  }

  lemma LegalIsRead(a: (nat, seq<Byte>), k: Key)
    ensures ReadOne(a.0, a.1, k).Some? <==> Legal(a)
  {
  }

  /** The fields that the attributes give, whatever else is wrong with them. */
  ghost predicate Gives(b: seq<Byte>, pos: nat, was: Key, hasTtl: bool, k: Key) {
    && Describes(Attrs(b, pos), was, k)
    && ReadFrom(b, pos, was, hasTtl) == if End(b, pos) >= |b| && k.dst != ZERO4 && (hasTtl || Has(Attrs(b, pos), TUNNEL_TTL)) then Some(k) else None
  }

  /**
   What is read, in terms of the set of attributes: a key if and only if every attribute
   has its length, nothing is left over, some attribute gives a TTL and the last
   destination is not zero; and then the last attribute of each kind.
   */
  lemma {:induction false} ReadMeans(b: seq<Byte>, pos: nat, was: Key, hasTtl: bool)
    ensures (forall i :: 0 <= i < |Attrs(b, pos)| ==> Legal(Attrs(b, pos)[i])) ==> exists k: Key :: Gives(b, pos, was, hasTtl, k)
    ensures (exists i :: 0 <= i < |Attrs(b, pos)| && !Legal(Attrs(b, pos)[i])) ==> ReadFrom(b, pos, was, hasTtl) == None
    decreases |b| - pos
  {
    hide Describes, Legal, ReadOne, IsLast, Has, NlaType, Payload, Align, NlaLen, Gives;
    if NlaOk(b, pos) {
      var a, next, rest := (NlaType(b, pos), Payload(b, pos)), pos + Align(NlaLen(b, pos)), Attrs(b, pos + Align(NlaLen(b, pos)));
      var attrs := Attrs(b, pos);
      assert attrs == [a] + rest && attrs[0] == a;
      LegalIsRead(a, was);
      if Legal(a) {
        var k' := ReadOne(a.0, a.1, was).value;
        ReadMeans(b, next, k', hasTtl || a.0 == TUNNEL_TTL);
        if forall i :: 0 <= i < |attrs| ==> Legal(attrs[i]) {
          forall i | 0 <= i < |rest| ensures Legal(rest[i]) { assert rest[i] == attrs[i + 1]; }
          var k: Key :| Gives(b, next, k', hasTtl || a.0 == TUNNEL_TTL, k);
          GivesNext(b, pos, was, hasTtl, k', k);
        } else {
          var i :| 0 <= i < |attrs| && !Legal(attrs[i]);
          assert rest[i - 1] == attrs[i];
        }
      }
    } else {
      assert Gives(b, pos, was, hasTtl, was) by { GivesEnd(b, pos, was, hasTtl); }
    }
  }

  lemma GivesEnd(b: seq<Byte>, pos: nat, was: Key, hasTtl: bool)
    requires !NlaOk(b, pos)
    ensures Gives(b, pos, was, hasTtl, was)
  {
  }

  lemma GivesNext(b: seq<Byte>, pos: nat, was: Key, hasTtl: bool, next: Key, k: Key)
    requires NlaOk(b, pos) && ReadOne(NlaType(b, pos), Payload(b, pos), was) == Some(next)
    requires Gives(b, pos + Align(NlaLen(b, pos)), next, hasTtl || NlaType(b, pos) == TUNNEL_TTL, k)
    ensures Gives(b, pos, was, hasTtl, k)
  {
    hide Describes, ReadOne, IsLast, Has, NlaType, Payload, Align, NlaLen;
    var a, rest := (NlaType(b, pos), Payload(b, pos)), Attrs(b, pos + Align(NlaLen(b, pos)));
    DescribesNext(a, rest, was, next, k);
    HasNext(a, rest, TUNNEL_TTL);
  }

  /** Every attribute has the length of its type. */
  predicate LegalKey(b: seq<Byte>) {
    forall i :: 0 <= i < |Attrs(b, 0)| ==> Legal(Attrs(b, 0)[i])
  }

  /** Nothing is left over, a TTL is given, and the destination is not zero. */
  predicate Complete(b: seq<Byte>, k: Key) {
    End(b, 0) >= |b| && k.dst != ZERO4 && Has(Attrs(b, 0), TUNNEL_TTL)
  }

  lemma ReadInfoMeans(b: seq<Byte>)
    ensures LegalKey(b) ==> exists k: Key :: Describes(Attrs(b, 0), NO_KEY, k) && ReadInfo(b) == if Complete(b, k) then Some(ToBytes(k)) else None
    ensures !LegalKey(b) ==> ReadInfo(b) == None
  {
    hide Describes, Legal, Attrs, End, ReadFrom, ToBytes, Has;
    ReadMeans(b, 0, NO_KEY, false);
    if LegalKey(b) {
      var k: Key :| Gives(b, 0, NO_KEY, false, k);
    }
  }

  // ----- writing

  function PutIf(on: bool, kind: nat, p: seq<Byte>): seq<Byte> {
    if on then PutAttr(kind, p) else []
  }

  /** The attributes that `ipv4_tun_to_nlattr` puts into its nest: zero fields are left out, except the TTL. */
  function PutKey(k: Key): (b: seq<Byte>) {
    PutIf(k.hasId, TUNNEL_ID, k.id) + PutRest(k)
  }

  function PutRest(k: Key): seq<Byte> {
    PutIf(k.src != ZERO4, TUNNEL_SRC, k.src) + (PutIf(k.dst != ZERO4, TUNNEL_DST, k.dst) + (PutIf(k.tos != 0, TUNNEL_TOS, [k.tos]) + PutFlags(k)))
  }

  function PutFlags(k: Key): seq<Byte> {
    PutAttr(TUNNEL_TTL, [k.ttl]) + (PutIf(k.dontFragment, TUNNEL_DONT_FRAGMENT, []) + PutIf(k.csum, TUNNEL_CSUM, []))
  }

  // ----- reading what was written

  lemma {:induction false} ReadShift(b: seq<Byte>, pos: nat, k: Key, hasTtl: bool)
    requires pos <= |b|
    ensures ReadFrom(b, pos, k, hasTtl) == ReadFrom(b[pos..], 0, k, hasTtl)
    decreases |b| - pos
  {
    hide ReadOne, Align, NlaType, Payload, NlaLen;
    var d := b[pos..];
    AttrShift(b, pos);
    if NlaOk(b, pos) && ReadOne(NlaType(b, pos), Payload(b, pos), k).Some? {
      var n, next, t := Align(NlaLen(b, pos)), ReadOne(NlaType(b, pos), Payload(b, pos), k).value, hasTtl || NlaType(b, pos) == TUNNEL_TTL;
      if pos + n <= |b| {
        ReadShift(b, pos + n, next, t);
        ReadShift(d, n, next, t);
        assert d[n..] == b[pos + n..];
      }
    }
  }

  /** An attribute that may be left out, in front of others. */
  lemma ReadPutIf(on: bool, kind: nat, p: seq<Byte>, rest: seq<Byte>, k: Key, next: Key, hasTtl: bool)
    requires kind < 16384 && |p| <= 8 && if on then ReadOne(kind, p, k) == Some(next) else next == k
    ensures ReadFrom(PutIf(on, kind, p) + rest, 0, k, hasTtl) == ReadFrom(rest, 0, next, hasTtl || (on && kind == TUNNEL_TTL))
  {
    hide ReadOne, Align, PutAttr;
    var b := PutIf(on, kind, p) + rest;
    if on {
      PutAttrAt([], kind, p, rest);
      assert b == [] + PutAttr(kind, p) + rest;
      var n := Align(4 + |p|);
      ReadShift(b, n, next, hasTtl || kind == TUNNEL_TTL);
      assert b[n..] == rest;
    } else {
      assert b == rest;
    }
  }

  /** What every key that was read satisfies. */
  predicate Readable(k: Key) {
    (k.hasId || k.id == ZERO8) && k.dst != ZERO4
  }

  lemma {:induction false} ReadIsReadable(b: seq<Byte>, pos: nat, k: Key, hasTtl: bool)
    requires ReadFrom(b, pos, k, hasTtl).Some? && (k.hasId || k.id == ZERO8)
    ensures Readable(ReadFrom(b, pos, k, hasTtl).value)
    decreases |b| - pos
  {
    hide Align, NlaType, Payload, NlaLen;
    if NlaOk(b, pos) {
      var kind := NlaType(b, pos);
      ReadIsReadable(b, pos + Align(NlaLen(b, pos)), ReadOne(kind, Payload(b, pos), k).value, hasTtl || kind == TUNNEL_TTL);
    }
  }

  /** Round trip: a key that was read and is written is read as the same key. */
  lemma ReadPutKey(k: Key)
    requires Readable(k)
    ensures ReadFrom(PutKey(k), 0, NO_KEY, false) == Some(k)
  {
    hide ReadFrom, PutIf, PutFlags;
    var k1 := NO_KEY.(id := k.id, hasId := k.hasId);
    var k2 := k1.(src := k.src);
    var k3 := k2.(dst := k.dst);
    var k4 := k3.(tos := k.tos);
    var r4 := PutFlags(k);
    var r3 := PutIf(k.tos != 0, TUNNEL_TOS, [k.tos]) + r4;
    var r2 := PutIf(k.dst != ZERO4, TUNNEL_DST, k.dst) + r3;
    ReadPutIf(k.hasId, TUNNEL_ID, k.id, PutRest(k), NO_KEY, k1, false);
    ReadPutIf(k.src != ZERO4, TUNNEL_SRC, k.src, r2, k1, k2, false);
    ReadPutIf(true, TUNNEL_DST, k.dst, r3, k2, k3, false);
    ReadPutIf(k.tos != 0, TUNNEL_TOS, [k.tos], r4, k3, k4, false);
    ReadPutFlags(k, k4);
  }

  lemma ReadPutFlags(k: Key, k4: Key)
    requires k4 == k.(ttl := 0, dontFragment := false, csum := false) && k.dst != ZERO4
    ensures ReadFrom(PutFlags(k), 0, k4, false) == Some(k)
  {
    hide PutIf, PutAttr;
    var k5 := k4.(ttl := k.ttl);
    var k6 := k5.(dontFragment := k.dontFragment);
    var r6 := PutIf(k.csum, TUNNEL_CSUM, []);
    var r5 := PutIf(k.dontFragment, TUNNEL_DONT_FRAGMENT, []) + r6;
    assert PutIf(true, TUNNEL_TTL, [k.ttl]) == PutAttr(TUNNEL_TTL, [k.ttl]) by { AlwaysPut(TUNNEL_TTL, [k.ttl]); }
    ReadPutIf(true, TUNNEL_TTL, [k.ttl], r5, k4, k5, false);
    ReadPutIf(k.dontFragment, TUNNEL_DONT_FRAGMENT, [], r6, k5, k6, true);
    ReadPutIf(k.csum, TUNNEL_CSUM, [], [], k6, k, true);
    assert r6 + [] == r6;
  }

  lemma AlwaysPut(kind: nat, p: seq<Byte>)
    ensures PutIf(true, kind, p) == PutAttr(kind, p)
  {
  }

  // ----- the size of what is written

  predicate IsZero(s: seq<Byte>) {
    s == ZERO4
  }

  function Size(k: Key, hasTtl: bool): nat {
    (if k.hasId then 12 else 0) + (if IsZero(k.src) then 0 else 8) + (if IsZero(k.dst) then 0 else 8) + (if k.tos != 0 then 8 else 0) +
    (if hasTtl then 8 else 0) + (if k.dontFragment then 4 else 0) + (if k.csum then 4 else 0)
  }

  lemma PutKeySize(k: Key)
    ensures |PutKey(k)| == Size(k, true)
  {
    hide PutAttr;
  }

  /** No more is written than was read. */
  lemma {:induction false} ReadSize(b: seq<Byte>, pos: nat, k: Key, hasTtl: bool)
    requires ReadFrom(b, pos, k, hasTtl).Some? && pos % 4 == 0 && pos <= Align(|b|)
    ensures |PutKey(ReadFrom(b, pos, k, hasTtl).value)| + pos <= Size(k, hasTtl) + Align(|b|)
    decreases |b| - pos
  {
    hide PutKey, NlaType, ReadOne, Size, Align;
    if NlaOk(b, pos) {
      AlignNext(pos, NlaLen(b, pos), |b|);
      var kind, p := NlaType(b, pos), Payload(b, pos);
      var t := hasTtl || kind == TUNNEL_TTL;
      var next := ReadOne(kind, p, k).value;
      StepSize(kind, p, k, hasTtl);
      ReadSize(b, pos + Align(NlaLen(b, pos)), next, t);
    } else {
      PutKeySize(k);
    }
  }

  lemma StepSize(kind: nat, p: seq<Byte>, k: Key, hasTtl: bool)
    requires ReadOne(kind, p, k).Some?
    ensures Size(ReadOne(kind, p, k).value, hasTtl || kind == TUNNEL_TTL) <= Size(k, hasTtl) + Align(4 + |p|)
  {
    hide Align, IsZero;
  }

  /** The whole conversion: there and back gives the same structure, in no more bytes. */
  lemma InfoRoundTrip(b: seq<Byte>)
    requires ReadInfo(b).Some?
    ensures var u := PutKey(FromBytes(ReadInfo(b).value));
            ReadInfo(u) == ReadInfo(b) && |u| <= Align(|b|)
  {
    hide ReadFrom, PutKey, ToBytes, FromBytes;
    var k := ReadFrom(b, 0, NO_KEY, false).value;
    BytesRoundTrip(k);
    ReadIsReadable(b, 0, NO_KEY, false);
    ReadPutKey(k);
    ReadSize(b, 0, NO_KEY, false);
  }

  /** A key that can be read has a destination and a TTL, and takes the room of both. */
  lemma ReadNeeds(b: seq<Byte>)
    requires ReadInfo(b).Some?
    ensures Align(|b|) >= 16
  {
    hide ReadFrom, PutKey, ToBytes, Align;
    var k := ReadFrom(b, 0, NO_KEY, false).value;
    ReadIsReadable(b, 0, NO_KEY, false);
    ReadSize(b, 0, NO_KEY, false);
    PutKeySize(k);
  }
}
