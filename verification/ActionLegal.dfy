/**
 Which action programs are accepted, said of their attributes: an independent reading of
 what `ovs_nla_copy_actions` checks.
 */
module ActionLegal {
  import opened Netlink
  import opened TunnelKey
  import opened ActionCodec
  import opened ActionCopy

  /** Numbers in attributes: little-endian of four bytes, and big-endian of two. */
  function Le32(p: seq<Byte>): nat
    requires |p| == 4
  {
    var a: nat, b: nat, c: nat, d: nat := p[0], p[1], p[2], p[3];
    a + 256 * b + 65536 * c + 16777216 * d
  }

  /** A set action's key fits the packets that the flow is for. */
  predicate LegalSetKey(k: FlowKey, kind: nat, q: seq<Byte>) {
    || (kind in {2, 15} && |q| == 4)
    || (kind == 4 && |q| == 12)
    || (kind == 7 && |q| == 12 && k.ethType == 0x0800 && q[8] == k.ipProto != 0 && q[11] == k.ipFrag)
    || (kind == 8 && |q| == 40 && k.ethType == 0x86dd && q[36] == k.ipProto != 0 && q[39] == k.ipFrag && Be16(q[32], q[33]) < 16)
    || ((kind, k.ipProto) in {(9, 6), (10, 17), (17, 132)} && |q| == 4 && k.ethType in {0x0800, 0x86dd} && k.tpSrc + k.tpDst > 0)
    || (kind == 16 && LegalTunnel(q))
  }

  /** A tunnel key that can be read: see `ReadTunnel` for what that takes. */
  predicate LegalTunnel(q: seq<Byte>) {
    LegalKey(q) && ReadInfo(q).Some?
  }

  /** One action, at a nesting depth. */
  ghost predicate LegalAction(c: Checks, kind: nat, p: seq<Byte>, depth: nat)
    decreases |p|, 1
  {
    || (kind == 1 && |p| == 4 && Le32(p) < 65535)
    || (kind == 2 && c.userspace(p))
    || (kind == 3 && End(p, 0) == |p| && |Attrs(p, 0)| == 1 && LegalSetKey(c.key, Attrs(p, 0)[0].0, Attrs(p, 0)[0].1))
    || (kind == 4 && |p| == 4 && Be16(p[0], p[1]) == 0x8100 && Be16(p[2], p[3]) / 0x1000 % 2 == 1)
    || (kind == 5 && p == [])
    || (kind == 6 && exists x, y :: TwoParts(p, x, y) && LegalSample(c, p, y, depth))
  }

  ghost predicate LegalSample(c: Checks, p: seq<Byte>, y: seq<Byte>, depth: nat)
    decreases |p|, 0
  {
    |y| < |p| && LegalProgram(c, y, depth + 1)
  }

  /** A list of actions: nothing is left over and every attribute is a legal action, three lists deep at most. */
  ghost predicate LegalProgram(c: Checks, b: seq<Byte>, depth: nat)
    decreases |b|, 0
  {
    && depth < 3 && End(b, 0) >= |b|
    && forall i :: 0 <= i < |Attrs(b, 0)| ==> LegalAction(c, Attrs(b, 0)[i].0, Attrs(b, 0)[i].1, depth)
  }

  // ----- the checks are these

  lemma SetKeyExact(k: FlowKey, kind: nat, q: seq<Byte>)
    requires kind != KEY_TUNNEL
    ensures Settable(k, kind, q) <==> LegalSetKey(k, kind, q)
  {
    if |q| == 40 { assert Be16(q[32], q[33]) < 16 <==> q[32] == 0 && q[33] / 16 == 0; }
  }

  lemma TunnelExact(q: seq<Byte>)
    ensures ReadInfo(q).Some? <==> LegalTunnel(q)
  {
    hide ReadInfo, LegalKey, Describes, Complete;
    ReadInfoMeans(q);
  }

  /** One attribute that fills the bytes. */
  lemma OneAttr(p: seq<Byte>)
    ensures End(p, 0) == |p| && |Attrs(p, 0)| == 1 <==> NlaOk(p, 0) && Align(NlaLen(p, 0)) == |p|
    ensures |Attrs(p, 0)| >= 1 ==> NlaOk(p, 0) && Attrs(p, 0)[0] == (NlaType(p, 0), Payload(p, 0))
  {
    hide Align, NlaType, Payload, NlaLen;
    if NlaOk(p, 0) {
      var n := Align(NlaLen(p, 0));
      assert Attrs(p, 0) == [(NlaType(p, 0), Payload(p, 0))] + Attrs(p, n) && End(p, 0) == End(p, n);
      assert NlaOk(p, n) ==> |Attrs(p, n)| > 0;
    }
  }

  lemma SetExact(c: Checks, p: seq<Byte>)
    ensures WantSet(c, p).Good? <==>
              End(p, 0) == |p| && |Attrs(p, 0)| == 1 && LegalSetKey(c.key, Attrs(p, 0)[0].0, Attrs(p, 0)[0].1)
  {
    hide Settable, Attrs, End, ReadInfo, LegalTunnel, NlaType, Payload, Align, NlaLen;
    OneAttr(p);
    if NlaOk(p, 0) {
      TunnelExact(Payload(p, 0));
      if NlaType(p, 0) != KEY_TUNNEL { SetKeyExact(c.key, NlaType(p, 0), Payload(p, 0)); }
    }
  }

  lemma PlainExact(c: Checks, kind: nat, p: seq<Byte>, depth: nat)
    requires kind != ACTION_SAMPLE
    ensures WantPlain(c, kind, p).Good? <==> LegalAction(c, kind, p, depth)
  {
    hide WantSet, LegalSetKey, Attrs, End;
    SetExact(c, p);
    if |p| == 4 { TagPresent(p[2], p[3]); }
  }

  lemma {:induction false} OneExact(c: Checks, kind: nat, p: seq<Byte>, depth: nat)
    ensures WantOne(c, kind, p, depth).Good? <==> LegalAction(c, kind, p, depth)
    decreases |p|, 3, 0
  {
    hide WantPlain, ScanSample, Want, TwoParts, LegalProgram;
    if kind != ACTION_SAMPLE {
      PlainExact(c, kind, p, depth);
    } else {
      forall x, y ensures ScanSample(p, 0, None, None) == Some((x, y)) <==> TwoParts(p, x, y) { ScanExact(p, x, y); }
      if ScanSample(p, 0, None, None).Some? {
        var (x, y) := ScanSample(p, 0, None, None).value;
        ProgramExact(c, y, depth + 1);
        assert TwoParts(p, x, y);
      }
    }
  }

  ghost predicate AllLegal(c: Checks, attrs: seq<(nat, seq<Byte>)>, depth: nat) {
    forall i :: 0 <= i < |attrs| ==> LegalAction(c, attrs[i].0, attrs[i].1, depth)
  }

  lemma AllLegalFirst(c: Checks, a: (nat, seq<Byte>), rest: seq<(nat, seq<Byte>)>, depth: nat)
    ensures AllLegal(c, [a] + rest, depth) <==> LegalAction(c, a.0, a.1, depth) && AllLegal(c, rest, depth)
  {
    hide LegalAction;
    var attrs := [a] + rest;
    if AllLegal(c, attrs, depth) {
      assert LegalAction(c, attrs[0].0, attrs[0].1, depth);
      forall i | 0 <= i < |rest| ensures LegalAction(c, rest[i].0, rest[i].1, depth) { assert rest[i] == attrs[i + 1]; }
    }
    if LegalAction(c, a.0, a.1, depth) && AllLegal(c, rest, depth) {
      forall i | 0 <= i < |attrs| ensures LegalAction(c, attrs[i].0, attrs[i].1, depth) {
        if i > 0 { assert attrs[i] == rest[i - 1]; }
      }
    }
  }

  lemma {:induction false} ListExact(c: Checks, b: seq<Byte>, pos: nat, depth: nat)
    ensures WantFrom(c, b, pos, depth).Good? <==> End(b, pos) >= |b| && AllLegal(c, Attrs(b, pos), depth)
    decreases |b|, 1, |b| - pos
  {
    hide WantOne, AllLegal, LegalAction, Align, NlaType, NlaLen;
    if NlaOk(b, pos) {
      var kind, p, next := NlaType(b, pos), Payload(b, pos), pos + Align(NlaLen(b, pos));
      OneExact(c, kind, p, depth);
      ListExact(c, b, next, depth);
      AllLegalFirst(c, (kind, p), Attrs(b, next), depth);
    } else {
      assert AllLegal(c, [], depth) by { NoneIllegal(c, depth); }
    }
  }

  lemma NoneIllegal(c: Checks, depth: nat)
    ensures AllLegal(c, [], depth)
  {
  }

  /**
   Acceptance: a program is wanted if and only if nothing is left over and every attribute
   is a legal action, in every list.
   */
  lemma {:induction false} ProgramExact(c: Checks, b: seq<Byte>, depth: nat)
    ensures Want(c, b, depth).Good? <==> LegalProgram(c, b, depth)
    decreases |b|, 2, 0
  {
    hide WantFrom, Attrs, End;
    ListExact(c, b, 0, depth);
  }

  /**
   A new flow's actions: a buffer sized to the input, then the copy.  An accepted program
   decodes to the tree that the client asked for; a refused one is refused for its first
   error, or for want of space.
   */
  method AcceptActions(slab: nat -> nat, mem: bool, c: Checks, b: seq<Byte>) returns (status: Status, buf: Buffer?)
    requires SlabOk(slab)
    ensures |b| > MAX_ACTIONS_BUFSIZE ==> status == Inval
    ensures status == Ok ==> LegalProgram(c, b, 0) && buf != null && buf.Valid() && Want(c, b, 0).Good? && Decode(buf.Contents()) == Some(Want(c, b, 0).value)
    ensures |b| <= MAX_ACTIONS_BUFSIZE && mem && Fits(c, b) ==> status == StatusOf(Want(c, b, 0))
    ensures |b| <= MAX_ACTIONS_BUFSIZE && mem && Fits(c, b) ==> (status == Ok <==> LegalProgram(c, b, 0))
    ensures status == NoMem ==> !mem
    ensures status == MsgSize ==> !Fits(c, b)
    ensures status == Inval || status == Overflow ==> |b| > MAX_ACTIONS_BUFSIZE || Want(c, b, 0) == Bad(status)
  {
    hide Decode, Want, NeedList, LegalProgram;
    ProgramExact(c, b, 0);
    if |b| > MAX_ACTIONS_BUFSIZE {
      return Inval, null;
    }
    if !mem {
      if * { return NoMem, null; }
    }
    var block := new Buffer(slab, mem, |b|);
    status := CopyActions(block, c, b, 0);
    buf := block;
    assert block.Contents()[0..] == block.Contents();
    if status == NoMem || status == MsgSize { assert Reserved(status, mem, 0, NeedList(c, b, 0)); }
  }
}
