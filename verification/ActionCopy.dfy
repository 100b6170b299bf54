/**
 The growing action buffer of `datapath/flow_netlink.c`, and the copier that validates a
 Netlink action program and flattens it into the buffer.
 */
module ActionCopy {
  import opened ActionCodec
  import opened Netlink
  import opened TunnelKey

  const MAX_ACTIONS_BUFSIZE: nat := 32768

  /** Where the actions start in `struct sw_flow_actions`, and the size of the structure. */
  const ACTIONS_OFFSET: nat := 20
  const ACTIONS_SIZEOF: nat := 24

  /**
   The allocator rounds up what was asked for, as to a power of two: to at most twice as
   much, and to at most 65536 bytes as long as these suffice.
   */
  ghost predicate SlabOk(slab: nat -> nat) {
    forall n: nat :: n <= slab(n) <= 2 * n && (n <= 65536 ==> slab(n) <= 65536)
  }

  /** The bytes for actions in a block of the given size, as `ksize` reports it. */
  function Room(slab: nat -> nat, size: nat): nat {
    var k := slab(ACTIONS_SIZEOF + size);
    if k >= ACTIONS_OFFSET then k - ACTIONS_OFFSET else 0
  }

  /** What `reserve_sfa_size` gets for 'req' more bytes: the new room, or an error. */
  function NewRoom(slab: nat -> nat, room: nat, len: nat, req: nat): (r: Result<nat>) {
    var size := 2 * (room + ACTIONS_OFFSET);
    if req + len <= room then Good(room)
    else if size <= MAX_ACTIONS_BUFSIZE then Good(Room(slab, size))
    else if MAX_ACTIONS_BUFSIZE < ACTIONS_OFFSET + len + req then Bad(MsgSize)
    else Good(Room(slab, MAX_ACTIONS_BUFSIZE))
  }

  /** With this allocator the reserved bytes are inside the buffer. */
  ghost predicate Inside(slab: nat -> nat, room: nat, len: nat, req: nat) {
    NewRoom(slab, room, len, req).Good? ==> len + req <= NewRoom(slab, room, len, req).value
  }

  /**
   Doubling is not checked to be enough: the reserved bytes are inside the buffer with
   every allocator if and only if doubling was not needed, or was capped, or is enough
   without any rounding up.
   */
  lemma ReserveFits(room: nat, len: nat, req: nat)
    requires len <= room
    ensures (forall slab :: SlabOk(slab) ==> Inside(slab, room, len, req)) <==>
              len + req <= room || 2 * (room + ACTIONS_OFFSET) > MAX_ACTIONS_BUFSIZE || len + req <= 2 * room + 44
  {
    var exactly: nat -> nat := n => n;
    assert SlabOk(exactly);
    assert Inside(exactly, room, len, req) <==> len + req <= room || 2 * (room + ACTIONS_OFFSET) > MAX_ACTIONS_BUFSIZE || len + req <= 2 * room + 44;
  }

  /** It is enough for any attribute that the buffer could hold when it was empty. */
  lemma ReserveEnough(slab: nat -> nat, room: nat, len: nat, req: nat)
    requires SlabOk(slab) && len <= room && NewRoom(slab, room, len, req).Good? && req <= room + 2 * ACTIONS_OFFSET
    ensures len + req <= NewRoom(slab, room, len, req).value && room <= NewRoom(slab, room, len, req).value
  {
  }

  /** Taken alone the function is not enough for every request; no copy into a buffer sized to its input makes such a request. */
  lemma ReserveCanFail()
    ensures exists slab, room: nat, len: nat, req: nat ::
              SlabOk(slab) && len <= room && NewRoom(slab, room, len, req).Good? && len + req > NewRoom(slab, room, len, req).value
  {
    var slab: nat -> nat := n => n;
    assert SlabOk(slab);
    assert NewRoom(slab, 4, 0, 100) == Good(52);
  }

  // ----- the buffer

  /** The largest block that is ever allocated, from its actions on: every offset has 16 bits. */
  const MAX_ROOM: nat := 65516

  class Buffer {
    const slab: nat -> nat
    /** Memory is there for every block; otherwise any allocation may fail. */
    const mem: bool
    /** The block from its actions on, and how much of it is used. */
    var data: array<Byte>
    var len: nat

    ghost predicate Valid()
      reads this
    {
      SlabOk(slab) && len <= data.Length <= MAX_ROOM && len % 4 == 0
    }

    ghost function Contents(): seq<Byte>
      requires Valid()
      reads this, data
    {
      data[..len]
    }

    /** `ovs_nla_alloc_flow_actions`, for a size in bounds. */
    constructor (slab: nat -> nat, mem: bool, size: nat)
      requires SlabOk(slab) && size <= MAX_ACTIONS_BUFSIZE
      ensures Valid() && fresh(data) && Contents() == [] && data.Length >= Align(size) && this.slab == slab && this.mem == mem
    {
      this.slab, this.mem := slab, mem;
      data, len := new Byte[Room(slab, size)](i => 0), 0;
    }

    /** `reserve_sfa_size`: 'req' is room for one attribute, aligned. */
    method Reserve(attrLen: nat) returns (status: Status)
      requires Valid() && Align(attrLen) <= data.Length + 2 * ACTIONS_OFFSET
      modifies this, data
      ensures Valid() && status in {Ok, MsgSize, NoMem} && (data == old(data) || fresh(data)) && data.Length >= old(data.Length)
      ensures status == Ok ==> len == old(len) + Align(attrLen) && data[..old(len)] == old(Contents())
      ensures status != Ok ==> len == old(len)
      ensures status == NoMem ==> !mem
      ensures status == Ok ==> NewRoom(slab, old(data.Length), old(len), Align(attrLen)) == Good(data.Length)
      ensures status == MsgSize <==> NewRoom(slab, old(data.Length), old(len), Align(attrLen)) == Bad(MsgSize)
      ensures old(len) + Align(attrLen) <= old(data.Length) ==> status == Ok && data == old(data)
    {
      var req := Align(attrLen);
      ReserveEnoughIf(slab, data.Length, len, req);
      match NewRoom(slab, data.Length, len, req) {
        case Bad(e) => return e;
        case Good(room) =>
          if room != data.Length {
            if !mem {
              if * { return NoMem; }
            }
            var block := new Byte[room](i => 0);
            forall i | 0 <= i < len { block[i] := data[i]; }
            data := block;
          }
      }
      len := len + req;
      status := Ok;
    }

    /** Stores bytes inside the used part. */
    method Write(at: nat, bytes: seq<Byte>)
      requires Valid() && at + |bytes| <= len
      modifies data
      ensures Contents() == old(Contents())[..at] + bytes + old(Contents())[at + |bytes|..]
    {
      for i := 0 to |bytes|
        invariant data[..len] == old(data[..len])[..at] + bytes[..i] + old(data[..len])[at + i..]
      {
        data[at + i] := bytes[i];
        assert data[..len] == old(data[..len])[..at] + bytes[..i + 1] + old(data[..len])[at + i + 1..];
      }
      assert bytes[..|bytes|] == bytes;
    }

    /** One whole attribute at the end. */
    method Append(bytes: seq<Byte>) returns (status: Status)
      requires Valid() && |bytes| % 4 == 0 && |bytes| <= data.Length + 2 * ACTIONS_OFFSET
      modifies this, data
      ensures Valid() && (data == old(data) || fresh(data)) && data.Length >= old(data.Length)
      ensures Reserved(status, mem, old(len), |bytes|)
      ensures if status == Ok then Contents() == old(Contents()) + bytes else len == old(len)
    {
      var at := len;
      status := Reserve(|bytes|);
      if status == Ok {
        Write(at, bytes);
      }
    }

    /** `add_action`: padded with zeros. */
    method AddAction(kind: nat, p: seq<Byte>) returns (status: Status)
      requires Valid() && kind < 65536 && |p| < 65532 && Align(4 + |p|) <= data.Length + 2 * ACTIONS_OFFSET
      modifies this, data
      ensures Valid() && (data == old(data) || fresh(data)) && data.Length >= old(data.Length)
      ensures Reserved(status, mem, old(len), Align(4 + |p|))
      ensures if status == Ok then Contents() == old(Contents()) + (Header(4 + |p|, kind) + p + Zeros(Align(4 + |p|) - 4 - |p|)) else len == old(len)
    {
      status := Append(Header(4 + |p|, kind) + p + Zeros(Align(4 + |p|) - 4 - |p|));
    }

    /** `add_nested_action_end`: the length of what has been added since 'st'. */
    method NestEnd(st: nat)
      requires Valid() && st + 4 <= len
      modifies data
      ensures Contents() == Patched(old(Contents()), st, len - st)
    {
      Write(st, Bytes16(len - st));
    }
  }

  /** The ways in which making room for 'n' bytes after 'len' can fail: no memory, or too much. */
  predicate Reserved(status: Status, mem: bool, len: nat, n: nat) {
    || status == Ok
    || (status == NoMem && !mem)
    || (status == MsgSize && len + n + ACTIONS_OFFSET > MAX_ACTIONS_BUFSIZE)
  }

  lemma ReserveEnoughIf(slab: nat -> nat, room: nat, len: nat, req: nat)
    requires SlabOk(slab) && len <= room <= MAX_ROOM && req <= room + 2 * ACTIONS_OFFSET
    ensures match NewRoom(slab, room, len, req)
            case Good(r) => len + req <= r && room <= r <= MAX_ROOM
            case Bad(e) => e == MsgSize
  {
  }

  // ----- what has been added

  /** 'now' is 'was' followed by a flat form of 'tree'. */
  ghost predicate Adds(was: seq<Byte>, now: seq<Byte>, tree: seq<Action>) {
    was <= now && Decode(now[|was|..]) == Some(tree)
  }

  lemma AddsNothing(was: seq<Byte>)
    ensures Adds(was, was, [])
  {
    assert was[|was|..] == [];
    DecodeNothing();
  }

  lemma AddsMore(a: seq<Byte>, b: seq<Byte>, c: seq<Byte>, t: seq<Action>, u: seq<Action>)
    requires Adds(a, b, t) && Adds(b, c, u)
    ensures Adds(a, c, t + u)
  {
    hide Decode;
    assert c[|a|..] == b[|a|..] + c[|b|..];
    DecodeConcat(b[|a|..], c[|b|..]);
  }

  lemma AddsBytes(was: seq<Byte>, more: seq<Byte>, tree: seq<Action>)
    requires Decode(more) == Some(tree)
    ensures Adds(was, was + more, tree)
  {
    hide Decode;
    assert (was + more)[|was|..] == more;
  }

  /** The attribute at 'pos' with its padding; what the list does not hold of it reads as zeros. */
  function Attr(b: seq<Byte>, pos: nat): (r: seq<Byte>)
    requires NlaOk(b, pos)
    ensures |r| == Align(NlaLen(b, pos))
  {
    var n := NlaLen(b, pos);
    var end := if pos + Align(n) <= |b| then pos + Align(n) else |b|;
    b[pos..end] + Zeros(pos + Align(n) - end)
  }

  lemma AttrParts(b: seq<Byte>, pos: nat)
    requires NlaOk(b, pos)
    ensures var n := NlaLen(b, pos);
            && n < 65536 && U16(b, pos + 2) < 65536
            && Attr(b, pos) == Header(n, U16(b, pos + 2)) + Payload(b, pos) + Attr(b, pos)[n..]
  {
    var n := NlaLen(b, pos);
    HeaderBytes(b, pos);
    var a := Attr(b, pos);
    assert a[..n] == b[pos..pos + n];
    assert a[..4] == a[..n][..4] == b[pos..pos + 4];
    assert a[4..n] == a[..n][4..] == Payload(b, pos);
    assert a == a[..4] + a[4..n] + a[n..];
  }

  lemma HeaderBytes(b: seq<Byte>, pos: nat)
    requires pos + 4 <= |b|
    ensures U16(b, pos) < 65536 && U16(b, pos + 2) < 65536
    ensures b[pos..pos + 4] == Header(U16(b, pos), U16(b, pos + 2))
  {
    WordBytes(b[pos], b[pos + 1]);
    WordBytes(b[pos + 2], b[pos + 3]);
  }

  lemma WordBytes(lo: nat, hi: nat)
    requires lo < 256 && hi < 256
    ensures (lo + 256 * hi) % 256 == lo && (lo + 256 * hi) / 256 == hi
  {
  }

  /** An accepted attribute that is copied as it is decodes to what was wanted. */
  lemma CopiedPlain(c: Checks, b: seq<Byte>, pos: nat)
    requires NlaOk(b, pos) && WantPlain(c, NlaType(b, pos), Payload(b, pos)).Good?
    requires WantPlain(c, NlaType(b, pos), Payload(b, pos)).value.Plain?
    ensures Decode(Attr(b, pos)) == Some([WantPlain(c, NlaType(b, pos), Payload(b, pos)).value])
  {
    hide Decode, Header, Attr;
    AttrParts(b, pos);
    var n, p := NlaLen(b, pos), Payload(b, pos);
    DecodeAttr(n, U16(b, pos + 2), p, Attr(b, pos)[n..]);
    DecodeNothing();
    PlainDecodes(c, NlaType(b, pos), p);
  }

  lemma PlainDecodes(c: Checks, kind: nat, p: seq<Byte>)
    requires WantPlain(c, kind, p).Good? && WantPlain(c, kind, p).value.Plain?
    ensures DecodeOne(kind, p) == Some(WantPlain(c, kind, p).value)
  {
    hide Decode;
  }

  // ----- the copier

  /** The bytes of a sample before and after its two lengths are patched. */
  lemma PatchedSample(was: seq<Byte>, prob: seq<Byte>, inner: seq<Byte>, now: seq<Byte>)
    requires |prob| == 4 && |inner| + 16 < 65536 && |inner| % 4 == 0 && Decode(inner).Some?
    requires now == was + Header(|inner| + 16, ACTION_SAMPLE) + (Header(8, SAMPLE_PROBABILITY) + prob + (Header(4 + |inner|, SAMPLE_ACTIONS) + inner))
    ensures Adds(was, now, [Sample(prob, Decode(inner).value)])
  {
    hide Header, Decode;
    DecodeSample(prob, inner);
    var p := Header(8, SAMPLE_PROBABILITY) + prob + (Header(4 + |inner|, SAMPLE_ACTIONS) + inner);
    assert now[|was|..] == Header(|inner| + 16, ACTION_SAMPLE) + p;
  }

  /** A set action with an internal tunnel key. */
  const TUNNEL_SIZE: nat := 32

  /** `validate_and_copy_set_tun`. */
  method CopyTunnel(buf: Buffer, key: seq<Byte>) returns (status: Status)
    requires buf.Valid()
    modifies buf, buf.data
    ensures buf.Valid() && (buf.data == old(buf.data) || fresh(buf.data)) && buf.data.Length >= old(buf.data.Length)
    ensures status == Inval <==> ReadInfo(key) == None
    ensures status != Inval ==> Reserved(status, buf.mem, old(buf.len), TUNNEL_SIZE)
    ensures status == Ok ==> buf.len == old(buf.len) + TUNNEL_SIZE && Adds(old(buf.Contents()), buf.Contents(), [Tunnel(ReadInfo(key).value)])
  {
    hide Adds, ReadInfo, LegalKey, Describes, Complete;
    var read := ReadTunnel(key);
    if read == None {
      return Inval;
    }
    status := AppendTunnel(buf, read.value);
  }

  /** The nest with the internal tunnel key. */
  method AppendTunnel(buf: Buffer, info: TunnelInfo) returns (status: Status)
    requires buf.Valid()
    modifies buf, buf.data
    ensures buf.Valid() && (buf.data == old(buf.data) || fresh(buf.data)) && buf.data.Length >= old(buf.data.Length)
    ensures Reserved(status, buf.mem, old(buf.len), TUNNEL_SIZE)
    ensures status == Ok ==> buf.len == old(buf.len) + TUNNEL_SIZE && Adds(old(buf.Contents()), buf.Contents(), [Tunnel(info)])
  {
    hide Header, Decode, Adds;
    ghost var was := buf.Contents();
    var start := buf.len;
    status := buf.AddAction(ACTION_SET, []);
    if status != Ok {
      return;
    }
    status := buf.AddAction(KEY_IPV4_TUNNEL, info);
    ghost var before := buf.Contents();
    buf.NestEnd(start);
    if status == Ok { TunnelBytes(was, before, info); }
  }

  lemma TunnelBytes(was: seq<Byte>, before: seq<Byte>, info: seq<Byte>)
    requires |info| == TUN_KEY_SIZE
    requires before == was + (Header(4, ACTION_SET) + [] + Zeros(0)) + (Header(4 + |info|, KEY_IPV4_TUNNEL) + info + Zeros(0))
    ensures Adds(was, Patched(before, |was|, |before| - |was|), [Tunnel(info)])
  {
    hide Decode, Header, Zeros;
    DecodeTunnel(info);
    var rest := Header(4 + |info|, KEY_IPV4_TUNNEL) + info;
    assert before == was + Header(4, ACTION_SET) + rest by { assert |Zeros(0)| == 0; }
    PatchAt(was, ACTION_SET, rest, |before| - |was|);
    assert (was + Header(8 + |info|, ACTION_SET) + rest)[|was|..] == Header(8 + |info|, ACTION_SET) + rest;
  }

  /** The scan of a sample's attributes in `validate_and_copy_sample`. */
  method FindSampleParts(p: seq<Byte>) returns (r: Option<(seq<Byte>, seq<Byte>)>)
    ensures r == ScanSample(p, 0, None, None)
    ensures forall x, y :: r == Some((x, y)) <==> TwoParts(p, x, y)
  {
    forall x, y ensures ScanSample(p, 0, None, None) == Some((x, y)) <==> TwoParts(p, x, y) { ScanExact(p, x, y); }
    hide TwoParts;
    var prob: Option<seq<Byte>>, acts: Option<seq<Byte>>, pos: nat := None, None, 0;
    while NlaOk(p, pos)
      invariant ScanSample(p, pos, prob, acts) == ScanSample(p, 0, None, None)
      decreases |p| - pos
    {
      var kind := NlaType(p, pos);
      if kind == SAMPLE_PROBABILITY && prob.None? {
        prob := Some(Payload(p, pos));
      } else if kind == SAMPLE_ACTIONS && acts.None? {
        acts := Some(Payload(p, pos));
      } else {
        return None;
      }
      pos := pos + Align(NlaLen(p, pos));
    }
    if pos != |p| || prob.None? || |prob.value| != 4 || acts.None? || (acts.value != [] && |acts.value| < NLA_HDRLEN) {
      return None;
    }
    r := Some((prob.value, acts.value));
  }

  /** What the scan makes of the attributes still to come, if nothing is left over after them. */
  function Parts(attrs: seq<(nat, seq<Byte>)>, whole: bool, prob: Option<seq<Byte>>, acts: Option<seq<Byte>>): Option<(seq<Byte>, seq<Byte>)> {
    if attrs == [] then
      if whole && prob.Some? && |prob.value| == 4 && acts.Some? && (acts.value == [] || |acts.value| >= NLA_HDRLEN) then Some((prob.value, acts.value)) else None
    else if attrs[0].0 == SAMPLE_PROBABILITY && prob.None? then Parts(attrs[1..], whole, Some(attrs[0].1), acts)
    else if attrs[0].0 == SAMPLE_ACTIONS && acts.None? then Parts(attrs[1..], whole, prob, Some(attrs[0].1))
    else None
  }

  lemma {:induction false} ScanIsParts(p: seq<Byte>, pos: nat, prob: Option<seq<Byte>>, acts: Option<seq<Byte>>)
    ensures ScanSample(p, pos, prob, acts) == Parts(Attrs(p, pos), End(p, pos) == |p|, prob, acts)
    decreases |p| - pos
  {
    hide NlaType, Payload, Align, NlaLen;
    if NlaOk(p, pos) {
      var kind, q, next := NlaType(p, pos), Payload(p, pos), pos + Align(NlaLen(p, pos));
      assert Attrs(p, pos)[1..] == Attrs(p, next);
      if kind == SAMPLE_PROBABILITY && prob.None? {
        ScanIsParts(p, next, Some(q), acts);
      } else if kind == SAMPLE_ACTIONS && acts.None? {
        ScanIsParts(p, next, prob, Some(q));
      }
    }
  }

  /**
   The sample consists of exactly two attributes, in either order: a probability of four
   bytes, and actions that are none or can be one.
   */
  predicate TwoParts(p: seq<Byte>, x: seq<Byte>, y: seq<Byte>) {
    && End(p, 0) == |p| && |x| == 4 && (y == [] || |y| >= NLA_HDRLEN)
    && (Attrs(p, 0) == [(SAMPLE_PROBABILITY, x), (SAMPLE_ACTIONS, y)] || Attrs(p, 0) == [(SAMPLE_ACTIONS, y), (SAMPLE_PROBABILITY, x)])
  }

  lemma ScanExact(p: seq<Byte>, x: seq<Byte>, y: seq<Byte>)
    ensures ScanSample(p, 0, None, None) == Some((x, y)) <==> TwoParts(p, x, y)
  {
    hide ScanSample, Attrs, End;
    ScanIsParts(p, 0, None, None);
    PartsExact(Attrs(p, 0), End(p, 0) == |p|, x, y);
  }

  lemma PartsExact(attrs: seq<(nat, seq<Byte>)>, whole: bool, x: seq<Byte>, y: seq<Byte>)
    ensures Parts(attrs, whole, None, None) == Some((x, y)) <==>
              && whole && |x| == 4 && (y == [] || |y| >= NLA_HDRLEN)
              && (attrs == [(SAMPLE_PROBABILITY, x), (SAMPLE_ACTIONS, y)] || attrs == [(SAMPLE_ACTIONS, y), (SAMPLE_PROBABILITY, x)])
  {
    var none: seq<(nat, seq<Byte>)> := [];
    if |attrs| == 2 {
      var u, v := attrs[0].1, attrs[1].1;
      assert attrs == [attrs[0], attrs[1]] && attrs[1..] == [attrs[1]] && attrs[1..][1..] == none;
      assert Parts(attrs[1..], whole, Some(u), None) == if attrs[1].0 == SAMPLE_ACTIONS then Parts(none, whole, Some(u), Some(v)) else None;
      assert Parts(attrs[1..], whole, None, Some(u)) == if attrs[1].0 == SAMPLE_PROBABILITY then Parts(none, whole, Some(v), Some(u)) else None;
    } else if |attrs| > 2 {
      var u, v := attrs[0].1, attrs[1].1;
      assert attrs[1..][1..] == attrs[2..];
      assert Parts(attrs[2..], whole, Some(u), Some(v)) == None && Parts(attrs[2..], whole, Some(v), Some(u)) == None;
      assert Parts(attrs[1..], whole, Some(u), None) == None && Parts(attrs[1..], whole, None, Some(u)) == None;
    } else if |attrs| == 1 {
      assert attrs[1..] == none;
    }
  }

  /** The end of `validate_and_copy_sample`: both nested lengths, from offsets into the buffer. */
  lemma SampleBytes(was: seq<Byte>, start: nat, prob: seq<Byte>, begun: seq<Byte>, full: seq<Byte>, tree: seq<Action>)
    requires |prob| == 4 && |was| % 4 == 0 && |full| < 65536 && |full| % 4 == 0
    requires begun == was + (Header(4, ACTION_SAMPLE) + [] + Zeros(0)) + (Header(8, SAMPLE_PROBABILITY) + prob + Zeros(0)) + (Header(4, SAMPLE_ACTIONS) + [] + Zeros(0))
    requires Adds(begun, full, tree) && start == |was|
    ensures var st := start + 12;
            Adds(was, Patched(Patched(full, st, |full| - st), start, |full| - start), [Sample(prob, tree)])
  {
    hide Decode, Header, Bytes16, Zeros, Patched;
    var inner := full[|begun|..];
    var a, b, c := Header(4, ACTION_SAMPLE), Header(8, SAMPLE_PROBABILITY), Header(4, SAMPLE_ACTIONS);
    assert begun == was + a + b + prob + c by { assert |Zeros(0)| == 0; }
    assert full == begun + inner;
    BothLengths(was, prob, inner, full);
    PatchedSample(was, prob, inner, Patched(Patched(full, start + 12, |full| - start - 12), start, |full| - start));
  }

  lemma BothLengths(was: seq<Byte>, prob: seq<Byte>, inner: seq<Byte>, full: seq<Byte>)
    requires |prob| == 4 && |full| < 65536
    requires full == was + Header(4, ACTION_SAMPLE) + Header(8, SAMPLE_PROBABILITY) + prob + Header(4, SAMPLE_ACTIONS) + inner
    ensures var start := |was|;
            Patched(Patched(full, start + 12, |full| - start - 12), start, |full| - start) ==
              was + Header(|inner| + 16, ACTION_SAMPLE) + (Header(8, SAMPLE_PROBABILITY) + prob + (Header(4 + |inner|, SAMPLE_ACTIONS) + inner))
  {
    hide Header, Patched;
    var a, b, c := Header(4, ACTION_SAMPLE), Header(8, SAMPLE_PROBABILITY), Header(4 + |inner|, SAMPLE_ACTIONS);
    PatchAt(was + a + b + prob, SAMPLE_ACTIONS, inner, 4 + |inner|);
    assert was + a + b + prob + c + inner == was + a + (b + prob + (c + inner));
    PatchAt(was, ACTION_SAMPLE, b + prob + (c + inner), |full| - |was|);
  }

  /** A buffer whose attribute at 'st' gets the length 'n'. */
  function Patched(b: seq<Byte>, st: nat, n: nat): (r: seq<Byte>)
    requires st + 2 <= |b| && n < 65536
    ensures |r| == |b|
  {
    b[..st] + Bytes16(n) + b[st + 2..]
  }

  lemma PatchAt(pre: seq<Byte>, kind: nat, post: seq<Byte>, n: nat)
    requires kind < 65536 && n < 65536
    ensures Patched(pre + Header(4, kind) + post, |pre|, n) == pre + Header(n, kind) + post
  {
    var b := pre + Header(4, kind) + post;
    assert b[|pre| + 2..] == Bytes16(kind) + post;
    assert b[..|pre|] == pre;
  }

  // ----- how much room it takes

  /** The bytes of the flat form. */
  function FlatSize(acts: seq<Action>): nat
    decreases acts, 0
  {
    if acts == [] then 0 else FlatSizeOne(acts[0]) + FlatSize(acts[1..])
  }

  function FlatSizeOne(a: Action): nat
    decreases a, 1
  {
    match a
    case Plain(_, p) => Align(4 + |p|)
    case Tunnel(_) => TUNNEL_SIZE
    case Sample(_, actions) => 16 + FlatSize(actions)
  }

  /** Every flat form of a program has this size. */
  lemma {:induction false} DecodedSize(b: seq<Byte>)
    requires Decode(b).Some?
    ensures |b| == FlatSize(Decode(b).value) && |b| % 4 == 0
    decreases |b|, 1
  {
    hide Decode, DecodeOne, FlatSizeOne, Align, NlaType;
    DecodeNothing();
    if b != [] {
      DecodeNext(b, []);
      var n := Align(NlaLen(b, 0));
      DecodedSize(b[n..]);
      DecodedOneSize(NlaType(b, 0), Payload(b, 0));
      var a, more := DecodeOne(NlaType(b, 0), Payload(b, 0)).value, Decode(b[n..]).value;
      assert ([a] + more)[1..] == more;
    }
  }

  lemma {:induction false} DecodedOneSize(kind: nat, p: seq<Byte>)
    requires DecodeOne(kind, p).Some?
    ensures Align(4 + |p|) == FlatSizeOne(DecodeOne(kind, p).value)
    decreases |p|, 2
  {
    hide Decode, FlatSize;
    if kind == ACTION_SAMPLE { DecodedSize(p[12..]); }
  }

  /** The bytes that the copier makes room for, from 'pos' to the end or to the first error. */
  function Need(c: Checks, b: seq<Byte>, pos: nat, depth: nat): nat
    decreases |b|, 1, |b| - pos
  {
    if !NlaOk(b, pos) then 0
    else
      var kind, p := NlaType(b, pos), Payload(b, pos);
      NeedOne(c, kind, p, depth) + if WantOne(c, kind, p, depth).Good? then Need(c, b, pos + Align(NlaLen(b, pos)), depth) else 0
  }

  function NeedOne(c: Checks, kind: nat, p: seq<Byte>, depth: nat): nat
    decreases |p|, 3, 0
  {
    if kind != ACTION_SAMPLE then
      match WantPlain(c, kind, p)
      case Bad(_) => 0
      case Good(a) => FlatSizeOne(a)
    else
      match ScanSample(p, 0, None, None)
      case None => 0
      case Some((_, acts)) => 16 + NeedList(c, acts, depth + 1)
  }

  function NeedList(c: Checks, b: seq<Byte>, depth: nat): nat
    decreases |b|, 2, 0
  {
    if depth >= SAMPLE_ACTION_DEPTH then 0 else Need(c, b, 0, depth)
  }

  /** An acceptable program needs the room of its flat form. */
  lemma {:induction false} NeedIsSize(c: Checks, b: seq<Byte>, pos: nat, depth: nat)
    requires WantFrom(c, b, pos, depth).Good?
    ensures Need(c, b, pos, depth) == FlatSize(WantFrom(c, b, pos, depth).value)
    decreases |b|, 1, |b| - pos
  {
    hide WantOne, NeedOne, FlatSizeOne, Align, NlaType;
    if NlaOk(b, pos) {
      var kind, p, next := NlaType(b, pos), Payload(b, pos), pos + Align(NlaLen(b, pos));
      NeedOneIsSize(c, kind, p, depth);
      NeedIsSize(c, b, next, depth);
      var a, more := WantOne(c, kind, p, depth).value, WantFrom(c, b, next, depth).value;
      assert ([a] + more)[1..] == more;
    }
  }

  lemma {:induction false} NeedOneIsSize(c: Checks, kind: nat, p: seq<Byte>, depth: nat)
    requires WantOne(c, kind, p, depth).Good?
    ensures NeedOne(c, kind, p, depth) == FlatSizeOne(WantOne(c, kind, p, depth).value)
    decreases |p|, 3, 0
  {
    hide WantPlain, WantFrom, Need, FlatSize;
    if kind == ACTION_SAMPLE {
      var (_, acts) := ScanSample(p, 0, None, None).value;
      NeedIsSize(c, acts, 0, depth + 1);
    }
  }

  /** What is made room for is a third more than the input at most, whatever is wrong with it. */
  lemma {:induction false} NeedBounded(c: Checks, b: seq<Byte>, pos: nat, depth: nat)
    requires pos % 4 == 0 && pos <= Align(|b|)
    ensures 3 * Need(c, b, pos, depth) + 4 * pos <= 4 * Align(|b|)
    decreases |b|, 1, |b| - pos
  {
    hide WantOne, NeedOne, Align, NlaType;
    if NlaOk(b, pos) {
      var kind, p, next := NlaType(b, pos), Payload(b, pos), pos + Align(NlaLen(b, pos));
      AlignNext(pos, NlaLen(b, pos), |b|);
      NeedOneBounded(c, kind, p, depth);
      NeedBounded(c, b, next, depth);
    }
  }

  lemma {:induction false} NeedOneBounded(c: Checks, kind: nat, p: seq<Byte>, depth: nat)
    ensures 3 * NeedOne(c, kind, p, depth) <= 4 * Align(4 + |p|)
    decreases |p|, 3, 0
  {
    hide WantPlain, ScanSample, Need, Align;
    if kind == ACTION_SAMPLE {
      if ScanSample(p, 0, None, None).Some? {
        var (x, acts) := ScanSample(p, 0, None, None).value;
        NeedBounded(c, acts, 0, depth + 1);
        SampleRoom(p, x, acts);
      }
    } else if SetsTunnel(kind, p) {
      WantTunnel(c, p);
      if ReadInfo(Payload(p, 0)).Some? { TunnelRoom(p); }
    } else {
      PlainErrors(c, kind, p);
    }
  }

  lemma SampleRoom(p: seq<Byte>, x: seq<Byte>, acts: seq<Byte>)
    requires ScanSample(p, 0, None, None) == Some((x, acts))
    ensures Align(|acts|) + 12 <= Align(4 + |p|)
  {
    hide ScanSample, Align;
    ScanLength(p, 0, None, None);
  }

  /** The two parts of a sample and their headers fill it. */
  lemma {:induction false} ScanLength(p: seq<Byte>, pos: nat, prob: Option<seq<Byte>>, acts: Option<seq<Byte>>)
    requires ScanSample(p, pos, prob, acts).Some?
    ensures var r := ScanSample(p, pos, prob, acts).value;
            && (prob.Some? ==> r.0 == prob.value) && (acts.Some? ==> r.1 == acts.value)
            && |p| == pos + (if prob.None? then 8 else 0) + (if acts.None? then 4 + Align(|r.1|) else 0)
    decreases |p| - pos
  {
    hide NlaType, Align, NlaLen;
    if NlaOk(p, pos) {
      var q, next := Payload(p, pos), pos + Align(NlaLen(p, pos));
      AlignNext(0, |q|, |q|);
      if NlaType(p, pos) == SAMPLE_PROBABILITY {
        ScanLength(p, next, Some(q), acts);
        assert Align(8) == 8 by { AlignOf8(); }
      } else {
        ScanLength(p, next, prob, Some(q));
      }
    }
  }

  lemma AlignOf8()
    ensures Align(8) == 8
  {
  }

  lemma TunnelRoom(p: seq<Byte>)
    requires SetsTunnel(ACTION_SET, p) && ReadInfo(Payload(p, 0)).Some?
    ensures Align(4 + |p|) >= 24
  {
    hide ReadInfo, NlaType, NlaLen, Align;
    var key := Payload(p, 0);
    ReadNeeds(key);
    AlignNext(0, |key|, |key|);
  }

  // ----- what copying promises

  /**
   The tree, or the error, that was wanted, unless there is no memory or the flat form
   does not fit into the largest buffer.
   */
  ghost predicate Copied(status: Status, mem: bool, want: Result<seq<Action>>, need: nat, was: seq<Byte>, now: seq<Byte>) {
    && (status == Ok ==> want.Good? && Adds(was, now, want.value) && |now| == |was| + need)
    && (status == Inval || status == Overflow ==> want == Bad(status))
    && (status == NoMem || status == MsgSize ==> Reserved(status, mem, |was|, need))
  }

  function ListOf(r: Result<Action>): Result<seq<Action>> {
    if r.Good? then Good([r.value]) else Bad(r.status)
  }

  /** `validate_and_copy_sample`. */
  method CopySample(buf: Buffer, c: Checks, p: seq<Byte>, depth: nat) returns (status: Status)
    requires buf.Valid() && Align(|p|) <= buf.data.Length + 2 * ACTIONS_OFFSET
    modifies buf, buf.data
    ensures buf.Valid() && (buf.data == old(buf.data) || fresh(buf.data)) && buf.data.Length >= old(buf.data.Length)
    ensures Copied(status, buf.mem, ListOf(WantOne(c, ACTION_SAMPLE, p, depth)), NeedOne(c, ACTION_SAMPLE, p, depth), old(buf.Contents()), buf.Contents())
    decreases |p|, 1
  {
    hide Decode, Adds, Want, ScanSample, NeedList, Reserved;
    var parts := FindSampleParts(p);
    if parts == None {
      return Inval;
    }
    var (prob, acts) := parts.value;
    status := FillSample(buf, c, prob, acts, depth);
  }

  /** The sample that is wanted if its actions are. */
  function SampleOf(prob: seq<Byte>, r: Result<seq<Action>>): Result<seq<Action>> {
    if r.Good? then Good([Sample(prob, r.value)]) else r
  }

  /** Its three headers, its actions, and then its two lengths. */
  method FillSample(buf: Buffer, c: Checks, prob: seq<Byte>, acts: seq<Byte>, depth: nat) returns (status: Status)
    requires buf.Valid() && |prob| == 4 && Align(|acts|) <= buf.data.Length + 2 * ACTIONS_OFFSET
    modifies buf, buf.data
    ensures buf.Valid() && (buf.data == old(buf.data) || fresh(buf.data)) && buf.data.Length >= old(buf.data.Length)
    ensures Copied(status, buf.mem, SampleOf(prob, Want(c, acts, depth + 1)), 16 + NeedList(c, acts, depth + 1), old(buf.Contents()), buf.Contents())
    decreases |acts|, 3
  {
    hide Decode, Header, Adds, Want, Patched, Zeros, NeedList;
    ghost var was := buf.Contents();
    var start := buf.len;
    status := OpenSample(buf, prob);
    if status != Ok {
      return;
    }
    ghost var begun := buf.Contents();
    status := CopyActions(buf, c, acts, depth + 1);
    if status != Ok {
      return;
    }
    ghost var full := buf.Contents();
    buf.NestEnd(start + 12);
    buf.NestEnd(start);
    SampleBytes(was, start, prob, begun, full, Want(c, acts, depth + 1).value);
  }

  /** The three attributes at the start of a sample. */
  method OpenSample(buf: Buffer, prob: seq<Byte>) returns (status: Status)
    requires buf.Valid() && |prob| == 4
    modifies buf, buf.data
    ensures buf.Valid() && (buf.data == old(buf.data) || fresh(buf.data)) && buf.data.Length >= old(buf.data.Length)
    ensures Reserved(status, buf.mem, old(buf.len), 16)
    ensures status == Ok ==> buf.Contents() == old(buf.Contents()) + (Header(4, ACTION_SAMPLE) + [] + Zeros(0)) +
                               (Header(8, SAMPLE_PROBABILITY) + prob + Zeros(0)) + (Header(4, SAMPLE_ACTIONS) + [] + Zeros(0))
  {
    hide Header, Zeros;
    status := buf.AddAction(ACTION_SAMPLE, []);
    if status == Ok {
      status := buf.AddAction(SAMPLE_PROBABILITY, prob);
      if status == Ok {
        status := buf.AddAction(SAMPLE_ACTIONS, []);
      }
    }
  }

  /** `action_lens` and `ovs_key_lens`; -1 is for any length. */
  const ACTION_LENS: seq<int> := [0, 4, -1, -1, 4, 0, -1]
  const KEY_LENS: seq<int> := [0, -1, 4, 4, 12, 2, 2, 12, 40, 4, 4, 2, 2, 24, 28, 4, -1, 4, 2]

  /** The checks of `ovs_nla_copy_actions` on an action that is neither a sample nor sets a tunnel. */
  method ValidatePlain(c: Checks, kind: nat, p: seq<Byte>) returns (ok: bool)
    requires kind != ACTION_SAMPLE && !SetsTunnel(kind, p)
    ensures ok <==> WantPlain(c, kind, p).Good?
  {
    hide WantSet;
    if kind >= |ACTION_LENS| || (ACTION_LENS[kind] != |p| && ACTION_LENS[kind] != -1) {
      return false;
    }
    if kind == ACTION_USERSPACE {
      ok := c.userspace(p);
    } else if kind == ACTION_OUTPUT {
      ok := U32(p) < DP_MAX_PORTS;
    } else if kind == ACTION_POP_VLAN {
      ok := true;
    } else if kind == ACTION_PUSH_VLAN {
      var tpid, tci := Be16(p[0], p[1]), Be16(p[2], p[3]);
      TagPresent(p[2], p[3]);
      ok := tpid == 0x8100 && tci / 0x1000 % 2 == 1;
    } else if kind == ACTION_SET {
      ok := ValidateSet(c, p);
    } else {
      ok := false;
    }
  }

  function Be16(hi: Byte, lo: Byte): nat {
    var h: nat, l: nat := hi, lo;
    256 * h + l
  }

  lemma TagPresent(hi: Byte, lo: Byte)
    ensures Be16(hi, lo) / 0x1000 % 2 == hi / 16 % 2
  {
    assert Be16(hi, lo) / 0x1000 == hi / 16;
  }

  /** `validate_set`, for a key other than a tunnel's. */
  method ValidateSet(c: Checks, p: seq<Byte>) returns (ok: bool)
    requires !SetsTunnel(ACTION_SET, p)
    ensures ok <==> WantSet(c, p).Good?
  {
    if !NlaOk(p, 0) || Align(NlaLen(p, 0)) != |p| {
      return false;
    }
    var kind, q, k := NlaType(p, 0), Payload(p, 0), c.key;
    if kind >= |KEY_LENS| || (KEY_LENS[kind] != |q| && KEY_LENS[kind] != -1) {
      return false;
    }
    if kind == KEY_PRIORITY || kind == KEY_SKB_MARK || kind == KEY_ETHERNET {
      ok := true;
    } else if kind == KEY_IPV4 {
      if k.ethType != ETH_P_IP || k.ipProto == 0 {
        return false;
      }
      ok := q[8] == k.ipProto && q[11] == k.ipFrag;
    } else if kind == KEY_IPV6 {
      if k.ethType != ETH_P_IPV6 || k.ipProto == 0 {
        return false;
      }
      ok := q[36] == k.ipProto && q[39] == k.ipFrag && Be16(q[32], q[33]) / 0x10 == 0;
    } else if kind == KEY_TCP {
      ok := k.ipProto == 6 && HasPorts(k);
    } else if kind == KEY_UDP {
      ok := k.ipProto == 17 && HasPorts(k);
    } else if kind == KEY_SCTP {
      ok := k.ipProto == 132 && HasPorts(k);
    } else {
      ok := false;
    }
  }

  /** An action other than a sample: a tunnel key is converted, all else copied. */
  method CopyPlain(buf: Buffer, c: Checks, b: seq<Byte>, pos: nat) returns (status: Status)
    requires buf.Valid() && NlaOk(b, pos) && Align(|b|) <= buf.data.Length + 2 * ACTIONS_OFFSET && NlaType(b, pos) != ACTION_SAMPLE
    modifies buf, buf.data
    ensures buf.Valid() && (buf.data == old(buf.data) || fresh(buf.data)) && buf.data.Length >= old(buf.data.Length)
    ensures Copied(status, buf.mem, ListOf(WantPlain(c, NlaType(b, pos), Payload(b, pos))), NeedOne(c, NlaType(b, pos), Payload(b, pos), 0), old(buf.Contents()), buf.Contents())
  {
    hide Decode, Adds, WantPlain, Attr;
    ghost var was := buf.Contents();
    var kind, p := NlaType(b, pos), Payload(b, pos);
    if SetsTunnel(kind, p) {
      WantTunnel(c, p);
      status := CopyTunnel(buf, Payload(p, 0));
    } else {
      PlainErrors(c, kind, p);
      var ok := ValidatePlain(c, kind, p);
      if !ok {
        return Inval;
      }
      AlignMore(NlaLen(b, pos), |b|);
      status := buf.Append(Attr(b, pos));
      CopiedPlain(c, b, pos);
      AddsBytes(was, Attr(b, pos), [Plain(kind, p)]);
    }
  }

  lemma AlignMore(m: nat, n: nat)
    requires m <= n
    ensures Align(m) <= Align(n)
  {
  }

  /** `validate_set` finds a tunnel key. */
  predicate SetsTunnel(kind: nat, p: seq<Byte>) {
    kind == ACTION_SET && NlaOk(p, 0) && Align(NlaLen(p, 0)) == |p| && NlaType(p, 0) == KEY_TUNNEL
  }

  lemma WantTunnel(c: Checks, p: seq<Byte>)
    requires SetsTunnel(ACTION_SET, p)
    ensures WantPlain(c, ACTION_SET, p) == match ReadInfo(Payload(p, 0)) case None => Bad(Inval) case Some(info) => Good(Tunnel(info))
  {
    hide ReadInfo;
  }

  lemma PlainErrors(c: Checks, kind: nat, p: seq<Byte>)
    requires !SetsTunnel(kind, p)
    ensures match WantPlain(c, kind, p)
            case Bad(e) => e == Inval
            case Good(a) => a == Plain(kind, p)
  {
    hide ReadInfo;
  }

  /**
   `ovs_nla_copy_actions`: on success the buffer holds, after what it held before, a flat
   form of the tree that the client asked for.
   */
  method CopyActions(buf: Buffer, c: Checks, b: seq<Byte>, depth: nat) returns (status: Status)
    requires buf.Valid() && Align(|b|) <= buf.data.Length + 2 * ACTIONS_OFFSET
    modifies buf, buf.data
    ensures buf.Valid() && (buf.data == old(buf.data) || fresh(buf.data)) && buf.data.Length >= old(buf.data.Length)
    ensures Copied(status, buf.mem, Want(c, b, depth), NeedList(c, b, depth), old(buf.Contents()), buf.Contents())
    decreases |b|, 2
  {
    hide Decode, Adds, WantOne, NeedOne, Align, NlaType, Payload, NlaLen;
    if depth >= SAMPLE_ACTION_DEPTH {
      return Overflow;
    }
    ghost var was, done: seq<Action> := buf.Contents(), [];
    AddsNothing(was);
    PrependNone(WantFrom(c, b, 0, depth));
    var pos := 0;
    while NlaOk(b, pos)
      invariant buf.Valid() && (buf.data == old(buf.data) || fresh(buf.data)) && buf.data.Length >= old(buf.data.Length)
      invariant Adds(was, buf.Contents(), done)
      invariant Prepend(done, WantFrom(c, b, pos, depth)) == Want(c, b, depth)
      invariant buf.len + Need(c, b, pos, depth) == |was| + NeedList(c, b, depth)
      decreases |b| - pos
    {
      ghost var before := buf.Contents();
      status := CopyOne(buf, c, b, pos, depth);
      if status != Ok {
        return;
      }
      ghost var a := WantOne(c, NlaType(b, pos), Payload(b, pos), depth).value;
      AddsMore(was, before, buf.Contents(), done, [a]);
      PrependMore(done, a, WantFrom(c, b, pos + Align(NlaLen(b, pos)), depth));
      done := done + [a];
      pos := pos + Align(NlaLen(b, pos));
    }
    if pos < |b| {
      return Inval;
    }
    assert done + [] == done;
    status := Ok;
  }

  lemma PrependNone(r: Result<seq<Action>>)
    ensures Prepend([], r) == r
  {
    if r.Good? { assert [] + r.value == r.value; }
  }

  lemma PrependMore(done: seq<Action>, a: Action, r: Result<seq<Action>>)
    ensures Prepend(done, Prepend([a], r)) == Prepend(done + [a], r)
  {
    if r.Good? { assert done + ([a] + r.value) == done + [a] + r.value; }
  }

  /** One round of the loop. */
  method CopyOne(buf: Buffer, c: Checks, b: seq<Byte>, pos: nat, depth: nat) returns (status: Status)
    requires buf.Valid() && NlaOk(b, pos) && Align(|b|) <= buf.data.Length + 2 * ACTIONS_OFFSET
    modifies buf, buf.data
    ensures buf.Valid() && (buf.data == old(buf.data) || fresh(buf.data)) && buf.data.Length >= old(buf.data.Length)
    ensures Copied(status, buf.mem, ListOf(WantOne(c, NlaType(b, pos), Payload(b, pos), depth)), NeedOne(c, NlaType(b, pos), Payload(b, pos), depth), old(buf.Contents()), buf.Contents())
    decreases |b|, 0
  {
    hide Decode, Adds, WantPlain, ScanSample, Want;
    var kind, p := NlaType(b, pos), Payload(b, pos);
    if kind == ACTION_SAMPLE {
      AlignMore(|p|, |b|);
      status := CopySample(buf, c, p, depth);
    } else {
      status := CopyPlain(buf, c, b, pos);
    }
  }

  function StatusOf(r: Result<seq<Action>>): Status {
    if r.Good? then Ok else r.status
  }

  /** What the program needs, up to its first error if it has one, fits into the largest buffer. */
  predicate Fits(c: Checks, b: seq<Byte>) {
    NeedList(c, b, 0) + ACTIONS_OFFSET <= MAX_ACTIONS_BUFSIZE
  }

  /** Every program up to this size fits, right or wrong. */
  lemma SmallFits(c: Checks, b: seq<Byte>)
    requires |b| <= 24560
    ensures Fits(c, b)
  {
    hide Need, Align;
    NeedBounded(c, b, 0, 0);
    AlignNext(0, |b|, 24560);
    Aligned(24560);
  }

  /** For a program without error this is the size of its flat form. */
  lemma FitsMeans(c: Checks, b: seq<Byte>)
    requires Want(c, b, 0).Good?
    ensures Fits(c, b) <==> FlatSize(Want(c, b, 0).value) + ACTIONS_OFFSET <= MAX_ACTIONS_BUFSIZE
  {
    NeedIsSize(c, b, 0, 0);
  }
}
