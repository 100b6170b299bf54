/**
 `ovs_nla_put_actions`: the flat form goes back to the Netlink form, and what comes out
 would be accepted again as the same program.
 */
module ActionPut {
  import opened ActionCodec
  import opened ActionCopy
  import opened Netlink
  import opened TunnelKey

  /** The Netlink form of an action. */
  function PutOne(a: Action): (b: seq<Byte>)
    decreases a, 1
  {
    match a
    case Plain(kind, p) => PutAttr(kind, p)
    case Tunnel(info) => PutAttr(ACTION_SET, PutAttr(KEY_TUNNEL, PutKey(FromBytes(info))))
    case Sample(prob, actions) => PutAttr(ACTION_SAMPLE, PutAttr(SAMPLE_PROBABILITY, prob) + PutAttr(SAMPLE_ACTIONS, Put(actions)))
  }

  function Put(acts: seq<Action>): (b: seq<Byte>)
    decreases acts, 0
  {
    if acts == [] then [] else PutOne(acts[0]) + Put(acts[1..])
  }

  lemma {:induction false} PutAligned(acts: seq<Action>)
    ensures |Put(acts)| % 4 == 0
  {
    hide PutAttr, PutKey, Align;
    if acts != [] {
      PutAligned(acts[1..]);
      assert |PutOne(acts[0])| % 4 == 0;
    }
  }

  lemma {:induction false} PutConcat(s: seq<Action>, t: seq<Action>)
    ensures Put(s + t) == Put(s) + Put(t)
  {
    hide PutOne;
    if s == [] {
      assert s + t == t && Put(s) + Put(t) == Put(t);
    } else {
      PutConcat(s[1..], t);
      assert (s + t)[1..] == s[1..] + t;
    }
  }

  // ----- reading it again

  /** What follows 'pos' decides what is read from 'pos' on. */
  lemma {:induction false} WantShift(c: Checks, b: seq<Byte>, pos: nat, depth: nat)
    requires pos <= |b|
    ensures WantFrom(c, b, pos, depth) == WantFrom(c, b[pos..], 0, depth)
    decreases |b| - pos
  {
    hide WantOne, Align, NlaType, Payload, NlaLen;
    var d := b[pos..];
    AttrShift(b, pos);
    if NlaOk(b, pos) {
      var n := Align(NlaLen(b, pos));
      if pos + n <= |b| {
        WantShift(c, b, pos + n, depth);
        WantShift(c, d, n, depth);
        assert d[n..] == b[pos + n..];
      }
    }
  }

  /** An acceptable attribute in front of others. */
  lemma WantAttr(c: Checks, kind: nat, p: seq<Byte>, rest: seq<Byte>, depth: nat)
    requires 4 + |p| < 65536 && kind < 16384 && WantOne(c, kind, p, depth).Good?
    ensures WantFrom(c, PutAttr(kind, p) + rest, 0, depth) == Prepend([WantOne(c, kind, p, depth).value], WantFrom(c, rest, 0, depth))
  {
    hide WantOne, Align, PutAttr;
    var b := PutAttr(kind, p) + rest;
    PutAttrAt([], kind, p, rest);
    assert b == [] + PutAttr(kind, p) + rest;
    WantShift(c, b, Align(4 + |p|), depth);
    assert b[Align(4 + |p|)..] == rest;
  }

  lemma ScanPut(prob: seq<Byte>, acts: seq<Byte>)
    requires |prob| == 4 && |acts| % 4 == 0 && 4 + |acts| < 65536
    ensures ScanSample(PutAttr(SAMPLE_PROBABILITY, prob) + PutAttr(SAMPLE_ACTIONS, acts), 0, None, None) == Some((prob, acts))
  {
    hide PutAttr, NlaLen, NlaType, Payload;
    var x, y := PutAttr(SAMPLE_PROBABILITY, prob), PutAttr(SAMPLE_ACTIONS, acts);
    var b := x + y;
    PutAttrAt([], SAMPLE_PROBABILITY, prob, y);
    assert b == [] + x + y;
    PutAttrAt(x, SAMPLE_ACTIONS, acts, []);
    assert b == x + y + [];
    assert ScanSample(b, |b|, Some(prob), Some(acts)) == Some((prob, acts));
  }

  lemma WantPutTunnel(c: Checks, key: seq<Byte>)
    requires ReadInfo(key).Some? && 8 + |PutKey(FromBytes(ReadInfo(key).value))| < 65536
    ensures WantPlain(c, ACTION_SET, PutAttr(KEY_TUNNEL, PutKey(FromBytes(ReadInfo(key).value)))) == Good(Tunnel(ReadInfo(key).value))
  {
    hide PutAttr, PutKey, FromBytes, ReadInfo, NlaType, Payload, NlaLen;
    var u := PutKey(FromBytes(ReadInfo(key).value));
    InfoRoundTrip(key);
    PutAttrAt([], KEY_TUNNEL, u, []);
    assert PutAttr(KEY_TUNNEL, u) == [] + PutAttr(KEY_TUNNEL, u) + [];
  }

  // ----- the round trip

  /**
   The Netlink form of one accepted action is no longer than what was sent, and is
   accepted as the same action.
   */
  lemma {:induction false} PutOneWant(c: Checks, kind: nat, p: seq<Byte>, rest: seq<Byte>, depth: nat)
    requires 4 + |p| < 65528 && WantOne(c, kind, p, depth).Good?
    ensures var a := WantOne(c, kind, p, depth).value;
            |PutOne(a)| <= Align(4 + |p|) && WantFrom(c, PutOne(a) + rest, 0, depth) == Prepend([a], WantFrom(c, rest, 0, depth))
    decreases |p|, 3, 0
  {
    hide WantFrom, PutOne, WantPlain, Want, ScanSample, Align;
    if kind == ACTION_SAMPLE {
      PutSampleWant(c, p, rest, depth);
    } else {
      PlainKind(c, kind, p);
      if WantPlain(c, kind, p).value.Plain? {
        PutPlainWant(c, kind, p, rest, depth);
      } else {
        PutTunnelWant(c, p, rest, depth);
      }
    }
  }

  lemma PutPlainWant(c: Checks, kind: nat, p: seq<Byte>, rest: seq<Byte>, depth: nat)
    requires 4 + |p| < 65528 && kind < 16384 && kind != ACTION_SAMPLE && WantPlain(c, kind, p) == Good(Plain(kind, p))
    ensures var a := Plain(kind, p);
            |PutOne(a)| <= Align(4 + |p|) && WantFrom(c, PutOne(a) + rest, 0, depth) == Prepend([a], WantFrom(c, rest, 0, depth))
  {
    hide WantFrom, PutAttr, WantPlain, Align, Want, ScanSample;
    WantAttr(c, kind, p, rest, depth);
  }

  lemma PutTunnelWant(c: Checks, p: seq<Byte>, rest: seq<Byte>, depth: nat)
    requires 4 + |p| < 65528 && NlaOk(p, 0) && Align(NlaLen(p, 0)) == |p| && ReadInfo(Payload(p, 0)).Some?
    ensures var a := Tunnel(ReadInfo(Payload(p, 0)).value);
            |PutOne(a)| <= Align(4 + |p|) && WantFrom(c, PutOne(a) + rest, 0, depth) == Prepend([a], WantFrom(c, rest, 0, depth))
  {
    hide WantFrom, PutAttr, WantPlain, Want, ScanSample, PutKey, ReadInfo, FromBytes, NlaLen;
    var key := Payload(p, 0);
    InfoRoundTrip(key);
    AlignNext(0, |key|, |key|);
    WantPutTunnel(c, key);
    WantAttr(c, ACTION_SET, PutAttr(KEY_TUNNEL, PutKey(FromBytes(ReadInfo(key).value))), rest, depth);
  }

  lemma PlainKind(c: Checks, kind: nat, p: seq<Byte>)
    requires WantPlain(c, kind, p).Good?
    ensures var a := WantPlain(c, kind, p).value;
            && kind < 16384 && (a == Plain(kind, p) || (kind == ACTION_SET && NlaOk(p, 0) && Align(NlaLen(p, 0)) == |p| && ReadInfo(Payload(p, 0)).Some? && a == Tunnel(ReadInfo(Payload(p, 0)).value)))
  {
    hide ReadInfo;
  }

  lemma {:induction false} PutSampleWant(c: Checks, p: seq<Byte>, rest: seq<Byte>, depth: nat)
    requires 4 + |p| < 65528 && WantOne(c, ACTION_SAMPLE, p, depth).Good?
    ensures var a := WantOne(c, ACTION_SAMPLE, p, depth).value;
            |PutOne(a)| <= Align(4 + |p|) && WantFrom(c, PutOne(a) + rest, 0, depth) == Prepend([a], WantFrom(c, rest, 0, depth))
    decreases |p|, 2, 0
  {
    hide WantFrom, PutAttr, ScanSample, Put;
    var (prob, acts) := ScanSample(p, 0, None, None).value;
    ScanLength(p, 0, None, None);
    PutAligned(Want(c, acts, depth + 1).value);
    PutWant(c, acts, 0, depth + 1);
    var actions := Want(c, acts, depth + 1).value;
    var q := PutAttr(SAMPLE_PROBABILITY, prob) + PutAttr(SAMPLE_ACTIONS, Put(actions));
    ScanPut(prob, Put(actions));
    WantAttr(c, ACTION_SAMPLE, q, rest, depth);
  }

  /** The same for a list from 'pos' on. */
  lemma {:induction false} PutWant(c: Checks, b: seq<Byte>, pos: nat, depth: nat)
    requires |b| < 65528 && pos % 4 == 0 && pos <= Align(|b|) && WantFrom(c, b, pos, depth).Good?
    ensures var tree := WantFrom(c, b, pos, depth).value;
            |Put(tree)| + pos <= Align(|b|) && WantFrom(c, Put(tree), 0, depth) == Good(tree)
    decreases |b|, 1, |b| - pos
  {
    hide WantOne, PutOne, NlaType, Align;
    if NlaOk(b, pos) {
      AlignNext(pos, NlaLen(b, pos), |b|);
      var kind, p, next := NlaType(b, pos), Payload(b, pos), pos + Align(NlaLen(b, pos));
      PutWant(c, b, next, depth);
      var a, more := WantOne(c, kind, p, depth).value, WantFrom(c, b, next, depth).value;
      PutOneWant(c, kind, p, Put(more), depth);
      assert ([a] + more)[1..] == more;
    }
  }

  /**
   Round trip of a whole program: what is reported of an accepted program is accepted
   again, as the same program, and is no longer than what the client sent.
   */
  lemma ReportIsAccepted(c: Checks, b: seq<Byte>)
    requires |b| < 65528 && Want(c, b, 0).Good?
    ensures var tree := Want(c, b, 0).value;
            Want(c, Put(tree), 0) == Good(tree) && |Put(tree)| <= Align(|b|)
  {
    hide WantFrom, Put;
    PutWant(c, b, 0, 0);
  }

  // ----- the message

  /** A message that is being filled, and the bytes it has room for. */
  class Message {
    const room: nat
    var data: seq<Byte>

    ghost predicate Valid()
      reads this
    {
      |data| <= room
    }

    constructor (room: nat)
      ensures Valid() && data == [] && this.room == room
    {
      this.room, data := room, [];
    }

    /** `nla_put`. */
    method PutAttribute(kind: nat, p: seq<Byte>) returns (status: Status)
      requires Valid()
      modifies this
      ensures Valid() && PutAll(status, room, old(data), data, PutAttr(kind, p))
      ensures status != Ok ==> data == old(data)
    {
      if |data| + Align(4 + |p|) > room {
        return MsgSize;
      }
      data := data + PutAttr(kind, p);
      status := Ok;
    }

    /** An attribute for a field that is not zero. */
    method PutOptional(on: bool, kind: nat, p: seq<Byte>) returns (status: Status)
      requires Valid()
      modifies this
      ensures Valid() && PutAll(status, room, old(data), data, PutIf(on, kind, p))
    {
      hide PutAttr;
      status := Ok;
      if on {
        status := PutAttribute(kind, p);
      } else {
        assert data + [] == data;
      }
    }

    /** `nla_nest_end`: the length of what follows from the header at 'start' on. */
    method NestEnd(start: nat)
      requires Valid() && start + 4 <= |data|
      modifies this
      ensures Valid() && data == Nested(old(data), start)
    {
      data := Nested(data, start);
    }
  }

  /** What putting promises: all the bytes are in the message if and only if they fit. */
  ghost predicate PutAll(status: Status, room: nat, was: seq<Byte>, now: seq<Byte>, bytes: seq<Byte>) {
    && status == (if |was| + |bytes| <= room then Ok else MsgSize)
    && (status == Ok ==> now == was + bytes)
  }

  lemma PutBoth(status: Status, room: nat, was: seq<Byte>, mid: seq<Byte>, now: seq<Byte>, x: seq<Byte>, y: seq<Byte>)
    requires PutAll(Ok, room, was, mid, x) && PutAll(status, room, mid, now, y)
    ensures PutAll(status, room, was, now, x + y)
  {
    assert was + x + y == was + (x + y);
  }

  /** What does not fit does not fit with more after it. */
  lemma PutFirst(status: Status, room: nat, was: seq<Byte>, now: seq<Byte>, x: seq<Byte>, y: seq<Byte>)
    requires PutAll(status, room, was, now, x) && status != Ok
    ensures PutAll(status, room, was, now, x + y)
  {
  }

  function Nested(b: seq<Byte>, start: nat): seq<Byte>
    requires start + 4 <= |b|
  {
    b[..start] + Bytes16((|b| - start) % 65536) + b[start + 2..]
  }

  /** A nest that is started, filled and ended is one attribute. */
  lemma NestIsAttr(was: seq<Byte>, kind: nat, p: seq<Byte>)
    requires |p| % 4 == 0
    ensures Nested(was + PutAttr(kind, []) + p, |was|) == was + PutAttr(kind, p)
  {
    var b := was + PutAttr(kind, []) + p;
    assert Align(4) == 4 && Align(4 + |p|) == 4 + |p|;
    assert PutAttr(kind, []) == Bytes16(4) + Bytes16(kind % 65536);
    assert b[..|was|] == was && b[|was| + 2..] == Bytes16(kind % 65536) + p;
  }

  /** A whole nest: a header, then its contents if the header fitted, then its length. */
  lemma PutNest(status: Status, room: nat, was: seq<Byte>, mid: seq<Byte>, now: seq<Byte>, kind: nat, p: seq<Byte>)
    requires PutAll(Ok, room, was, mid, PutAttr(kind, [])) && PutAll(status, room, mid, now, p) && |p| % 4 == 0
    ensures status == Ok ==> |was| + 4 <= |now| && PutAll(status, room, was, Nested(now, |was|), PutAttr(kind, p))
    ensures status != Ok ==> PutAll(status, room, was, now, PutAttr(kind, p))
  {
    hide PutAttr, Nested;
    NestIsAttr(was, kind, p);
    NestSize(p);
  }

  lemma NestSize(p: seq<Byte>)
    requires |p| % 4 == 0
    ensures Align(4) == 4 && Align(4 + |p|) == 4 + |p|
  {
  }

  lemma NestFails(status: Status, room: nat, was: seq<Byte>, now: seq<Byte>, kind: nat, p: seq<Byte>)
    requires PutAll(status, room, was, now, PutAttr(kind, [])) && status != Ok
    ensures PutAll(status, room, was, now, PutAttr(kind, p))
  {
    hide PutAttr;
  }

  // ----- tunnel keys

  /** The end of `ipv4_tun_to_nlattr`: the TTL and the flags. */
  method PutTunnelFlags(m: Message, k: Key) returns (status: Status)
    requires m.Valid()
    modifies m
    ensures m.Valid() && PutAll(status, m.room, old(m.data), m.data, PutFlags(k))
  {
    hide PutAttr, PutIf, PutAll;
    ghost var was, t, d, c := m.data, PutAttr(TUNNEL_TTL, [k.ttl]), PutIf(k.dontFragment, TUNNEL_DONT_FRAGMENT, []), PutIf(k.csum, TUNNEL_CSUM, []);
    status := m.PutAttribute(TUNNEL_TTL, [k.ttl]);
    if status != Ok {
      PutFirst(status, m.room, was, m.data, t, d + c);
      return;
    }
    ghost var mid := m.data;
    status := m.PutOptional(k.dontFragment, TUNNEL_DONT_FRAGMENT, []);
    if status != Ok {
      PutFirst(status, m.room, mid, m.data, d, c);
    } else {
      ghost var last := m.data;
      status := m.PutOptional(k.csum, TUNNEL_CSUM, []);
      PutBoth(status, m.room, mid, last, m.data, d, c);
    }
    PutBoth(status, m.room, was, mid, m.data, t, d + c);
  }

  /** Its middle: the addresses and the type of service, if they are not zero. */
  method PutTunnelFields(m: Message, k: Key) returns (status: Status)
    requires m.Valid()
    modifies m
    ensures m.Valid() && PutAll(status, m.room, old(m.data), m.data, PutRest(k))
  {
    hide PutAttr, PutIf, PutAll, PutFlags;
    ghost var room, was := m.room, m.data;
    ghost var s, d, t := PutIf(k.src != ZERO4, TUNNEL_SRC, k.src), PutIf(k.dst != ZERO4, TUNNEL_DST, k.dst), PutIf(k.tos != 0, TUNNEL_TOS, [k.tos]);
    ghost var f := PutFlags(k);
    status := m.PutOptional(k.src != ZERO4, TUNNEL_SRC, k.src);
    if status != Ok {
      PutFirst(status, room, was, m.data, s, d + (t + f));
      return;
    }
    ghost var one := m.data;
    status := m.PutOptional(k.dst != ZERO4, TUNNEL_DST, k.dst);
    if status != Ok {
      PutFirst(status, room, one, m.data, d, t + f);
    } else {
      ghost var two := m.data;
      status := m.PutOptional(k.tos != 0, TUNNEL_TOS, [k.tos]);
      if status != Ok {
        PutFirst(status, room, two, m.data, t, f);
      } else {
        ghost var three := m.data;
        status := PutTunnelFlags(m, k);
        PutBoth(status, room, two, three, m.data, t, f);
      }
      PutBoth(status, room, one, two, m.data, d, t + f);
    }
    PutBoth(status, room, was, one, m.data, s, d + (t + f));
  }

  /** `ipv4_tun_to_nlattr`. */
  method PutTunnelKey(m: Message, k: Key) returns (status: Status)
    requires m.Valid()
    modifies m
    ensures m.Valid() && PutAll(status, m.room, old(m.data), m.data, PutAttr(KEY_TUNNEL, PutKey(k)))
  {
    hide PutAttr, PutIf, PutAll, PutRest, Nested;
    ghost var room, was, i := m.room, m.data, PutIf(k.hasId, TUNNEL_ID, k.id);
    var start := |m.data|;
    status := m.PutAttribute(KEY_TUNNEL, []);
    if status != Ok {
      NestFails(status, room, was, m.data, KEY_TUNNEL, PutKey(k));
      return;
    }
    ghost var one := m.data;
    status := m.PutOptional(k.hasId, TUNNEL_ID, k.id);
    if status != Ok {
      PutFirst(status, room, one, m.data, i, PutRest(k));
    } else {
      ghost var two := m.data;
      status := PutTunnelFields(m, k);
      PutBoth(status, room, one, two, m.data, i, PutRest(k));
    }
    PutKeyAligned(k);
    PutNest(status, room, was, one, m.data, KEY_TUNNEL, PutKey(k));
    if status == Ok {
      m.NestEnd(start);
    }
  }

  lemma PutKeyAligned(k: Key)
    ensures |PutKey(k)| % 4 == 0
  {
    hide PutKey;
    PutKeySize(k);
  }

  // ----- the actions

  /** `set_action_to_attr`: an internal tunnel key is converted back, all else copied. */
  method PutSet(m: Message, p: seq<Byte>) returns (status: Status)
    requires m.Valid() && DecodeOne(ACTION_SET, p).Some?
    modifies m
    ensures m.Valid() && PutAll(status, m.room, old(m.data), m.data, PutOne(DecodeOne(ACTION_SET, p).value))
  {
    hide PutAttr, PutAll, Nested, PutKey, FromBytes, NlaType, Payload, Decode;
    if !NlaOk(p, 0) || NlaType(p, 0) != KEY_IPV4_TUNNEL {
      status := m.PutAttribute(ACTION_SET, p);
      return;
    }
    var start, k := |m.data|, FromBytes(Payload(p, 0));
    ghost var room, was := m.room, m.data;
    status := m.PutAttribute(ACTION_SET, []);
    if status != Ok {
      NestFails(status, room, was, m.data, ACTION_SET, PutAttr(KEY_TUNNEL, PutKey(k)));
      return;
    }
    ghost var mid := m.data;
    status := PutTunnelKey(m, k);
    PutNest(status, room, was, mid, m.data, ACTION_SET, PutAttr(KEY_TUNNEL, PutKey(k)));
    if status == Ok {
      m.NestEnd(start);
    }
  }

  /** The parts of a sample in the flat form. */
  lemma SampleParts(p: seq<Byte>)
    requires DecodeOne(ACTION_SAMPLE, p).Some?
    ensures NlaOk(p, 0) && NlaType(p, 0) == SAMPLE_PROBABILITY && NlaLen(p, 0) == 8 && Align(8) == 8 && !NlaOk(p, 8 + Align(|p| - 8))
    ensures NlaOk(p, 8) && NlaType(p, 8) == SAMPLE_ACTIONS && NlaLen(p, 8) == |p| - 8 && |Payload(p, 8)| < |p| && Decode(Payload(p, 8)).Some?
    ensures DecodeOne(ACTION_SAMPLE, p).value == Sample(Payload(p, 0), Decode(Payload(p, 8)).value)
  {
    hide Decode;
    assert Payload(p, 8) == p[12..];
  }

  /** What the loop over a sample's attributes has put by 'pos'. */
  function SamplePut(p: seq<Byte>, pos: nat): seq<Byte>
    requires DecodeOne(ACTION_SAMPLE, p).Some?
  {
    var a := DecodeOne(ACTION_SAMPLE, p).value;
    if !a.Sample? || pos == 0 then []
    else if pos == 8 then PutAttr(SAMPLE_PROBABILITY, a.probability)
    else PutAttr(SAMPLE_PROBABILITY, a.probability) + PutAttr(SAMPLE_ACTIONS, Put(a.actions))
  }

  /** `sample_action_to_attr`. */
  method PutSample(m: Message, p: seq<Byte>) returns (status: Status)
    requires m.Valid() && DecodeOne(ACTION_SAMPLE, p).Some?
    modifies m
    ensures m.Valid() && PutAll(status, m.room, old(m.data), m.data, PutOne(DecodeOne(ACTION_SAMPLE, p).value))
    decreases |p|, 2
  {
    hide PutAttr, PutAll, Nested, NlaType, Payload, Decode, DecodeOne, SamplePut, NlaLen, Put;
    SampleParts(p);
    SampleIsPut(p);
    ghost var room, was, whole := m.room, m.data, SamplePut(p, |p|);
    var start, pos := |m.data|, 0;
    status := m.PutAttribute(ACTION_SAMPLE, []);
    if status != Ok {
      NestFails(status, room, was, m.data, ACTION_SAMPLE, whole);
      return;
    }
    ghost var mid := m.data;
    PutNothing(room, mid);
    while NlaOk(p, pos)
      invariant m.Valid() && (pos == 0 || pos == 8 || pos == 8 + Align(|p| - 8))
      invariant PutAll(Ok, room, mid, m.data, SamplePut(p, pos))
      decreases |p| - pos
    {
      ghost var before := m.data;
      if NlaType(p, pos) == SAMPLE_PROBABILITY {
        status := m.PutAttribute(SAMPLE_PROBABILITY, Payload(p, pos));
      } else {
        status := PutSampleActions(m, Payload(p, pos));
      }
      SampleStep(status, room, mid, before, m.data, p, pos);
      if status != Ok {
        PutNest(status, room, was, mid, m.data, ACTION_SAMPLE, whole);
        return;
      }
      pos := pos + Align(NlaLen(p, pos));
    }
    PutNest(Ok, room, was, mid, m.data, ACTION_SAMPLE, whole);
    m.NestEnd(start);
    status := Ok;
  }

  lemma PutNothing(room: nat, was: seq<Byte>)
    requires |was| <= room
    ensures PutAll(Ok, room, was, was, [])
  {
    assert was + [] == was;
  }

  lemma SampleIsPut(p: seq<Byte>)
    requires DecodeOne(ACTION_SAMPLE, p).Some?
    ensures SamplePut(p, 0) == [] && SamplePut(p, 8 + Align(|p| - 8)) == SamplePut(p, |p|) && |SamplePut(p, |p|)| % 4 == 0
    ensures PutOne(DecodeOne(ACTION_SAMPLE, p).value) == PutAttr(ACTION_SAMPLE, SamplePut(p, |p|))
  {
    hide PutAttr, Put, DecodeOne;
    SampleParts(p);
  }

  /** One round of the loop: its attribute follows what was put, or nothing more fits. */
  lemma SampleStep(status: Status, room: nat, mid: seq<Byte>, before: seq<Byte>, now: seq<Byte>, p: seq<Byte>, pos: nat)
    requires DecodeOne(ACTION_SAMPLE, p).Some? && (pos == 0 || pos == 8) && NlaOk(p, pos)
    requires PutAll(Ok, room, mid, before, SamplePut(p, pos))
    requires var a := DecodeOne(ACTION_SAMPLE, p).value;
             a.Sample? && PutAll(status, room, before, now, if pos == 0 then PutAttr(SAMPLE_PROBABILITY, a.probability) else PutAttr(SAMPLE_ACTIONS, Put(a.actions)))
    ensures if status == Ok then PutAll(Ok, room, mid, now, SamplePut(p, pos + Align(NlaLen(p, pos)))) else PutAll(status, room, mid, now, SamplePut(p, |p|))
  {
    hide PutAttr, PutAll, Put, DecodeOne;
    SampleParts(p);
    var a := DecodeOne(ACTION_SAMPLE, p).value;
    var x, y := PutAttr(SAMPLE_PROBABILITY, a.probability), PutAttr(SAMPLE_ACTIONS, Put(a.actions));
    PutBoth(status, room, mid, before, now, SamplePut(p, pos), if pos == 0 then x else y);
    if pos == 0 {
      assert SamplePut(p, 0) + x == x;
      if status != Ok { PutFirst(status, room, mid, now, x, y); }
    }
  }

  /** The nest with a sample's actions. */
  method PutSampleActions(m: Message, b: seq<Byte>) returns (status: Status)
    requires m.Valid() && Decode(b).Some?
    modifies m
    ensures m.Valid() && PutAll(status, m.room, old(m.data), m.data, PutAttr(SAMPLE_ACTIONS, Put(Decode(b).value)))
    decreases |b|, 2
  {
    hide PutAttr, PutAll, Nested, Decode, Put;
    ghost var room, was, bytes := m.room, m.data, Put(Decode(b).value);
    var start := |m.data|;
    status := m.PutAttribute(SAMPLE_ACTIONS, []);
    if status != Ok {
      NestFails(status, room, was, m.data, SAMPLE_ACTIONS, bytes);
      return;
    }
    ghost var mid := m.data;
    status := PutActions(m, b);
    PutAligned(Decode(b).value);
    PutNest(status, room, was, mid, m.data, SAMPLE_ACTIONS, bytes);
    if status == Ok {
      m.NestEnd(start);
    }
  }

  /** One action of the flat form. */
  method PutAction(m: Message, kind: nat, p: seq<Byte>) returns (status: Status)
    requires m.Valid() && DecodeOne(kind, p).Some?
    modifies m
    ensures m.Valid() && PutAll(status, m.room, old(m.data), m.data, PutOne(DecodeOne(kind, p).value))
    decreases |p|, 3
  {
    hide PutAttr, PutAll, Decode;
    if kind == ACTION_SET {
      status := PutSet(m, p);
    } else if kind == ACTION_SAMPLE {
      status := PutSample(m, p);
    } else {
      status := m.PutAttribute(kind, p);
    }
  }

  /**
   `ovs_nla_put_actions`: the whole Netlink form of the program is appended if and only if
   it fits into the message.
   */
  method PutActions(m: Message, b: seq<Byte>) returns (status: Status)
    requires m.Valid() && Decode(b).Some?
    modifies m
    ensures m.Valid() && PutAll(status, m.room, old(m.data), m.data, Put(Decode(b).value))
    decreases |b|, 1
  {
    hide PutAll, Decode, DecodeOne, Put, PutOne, Align, NlaType, Payload, NlaLen, NlaOk;
    ghost var room, was, done: seq<Action> := m.room, m.data, [];
    PutNothing(room, was);
    assert Put([]) == [] by { PutEmpty(); }
    var rest := b;
    assert [] + Decode(rest).value == Decode(b).value;
    while NlaOk(rest, 0)
      invariant m.Valid() && |rest| <= |b| && Decode(rest).Some? && done + Decode(rest).value == Decode(b).value
      invariant PutAll(Ok, room, was, m.data, Put(done))
      decreases |rest|
    {
      AttrSmaller(rest);
      DecodeNext(rest, []);
      ghost var mid := m.data;
      ghost var a, more := DecodeOne(NlaType(rest, 0), Payload(rest, 0)).value, Decode(rest[Align(NlaLen(rest, 0))..]).value;
      status := PutAction(m, NlaType(rest, 0), Payload(rest, 0));
      PutBoth(status, room, was, mid, m.data, Put(done), PutOne(a));
      PutSnoc(done, a);
      assert done + ([a] + more) == done + [a] + more;
      if status != Ok {
        PutConcat(done + [a], more);
        PutFirst(status, room, was, m.data, Put(done + [a]), Put(more));
        return;
      }
      done := done + [a];
      rest := rest[Align(NlaLen(rest, 0))..];
    }
    DecodeEnds(rest);
    assert done + [] == done;
    status := Ok;
  }

  lemma PutEmpty()
    ensures Put([]) == []
  {
  }

  lemma PutSnoc(done: seq<Action>, a: Action)
    ensures Put(done + [a]) == Put(done) + PutOne(a)
  {
    hide PutOne;
    PutConcat(done, [a]);
    assert Put([a]) == PutOne(a) + Put([]);
  }

  lemma DecodeEnds(b: seq<Byte>)
    requires Decode(b).Some? && !NlaOk(b, 0)
    ensures Decode(b) == Some([])
  {
    hide DecodeOne;
  }

  lemma AttrSmaller(b: seq<Byte>)
    requires NlaOk(b, 0)
    ensures b != [] && |Payload(b, 0)| + 4 <= |b| && Align(NlaLen(b, 0)) >= 4
  {
  }
}
