/**
 Action programs of `datapath/flow_netlink.c` as bytes and as trees: the flat form that
 the datapath executes, the Netlink form that a client sends, and what accepting means.
 */
module ActionCodec {
  import opened Netlink
  import opened TunnelKey

  const SAMPLE_ACTION_DEPTH: nat := 3
  const DP_MAX_PORTS: nat := 65535

  const ACTION_OUTPUT: nat := 1
  const ACTION_USERSPACE: nat := 2
  const ACTION_SET: nat := 3
  const ACTION_PUSH_VLAN: nat := 4
  const ACTION_POP_VLAN: nat := 5
  const ACTION_SAMPLE: nat := 6
  const SAMPLE_PROBABILITY: nat := 1
  const SAMPLE_ACTIONS: nat := 2

  datatype Action =
    | Plain(kind: nat, payload: seq<Byte>)
    | Sample(probability: seq<Byte>, actions: seq<Action>)
    | Tunnel(info: TunnelInfo)

  // ----- the flat form

  /** The type of an internal tunnel key, which no client can send. */
  const KEY_IPV4_TUNNEL: nat := 19

  /** The tree of a flat action list, as `do_execute_actions` walks it. */
  function Decode(b: seq<Byte>): (r: Option<seq<Action>>)
    decreases |b|, 1
  {
    if b == [] then Some([])
    else if !NlaOk(b, 0) || Align(NlaLen(b, 0)) > |b| then None
    else Cons(DecodeOne(NlaType(b, 0), Payload(b, 0)), Decode(b[Align(NlaLen(b, 0))..]))
  }

  function Cons(a: Option<Action>, rest: Option<seq<Action>>): Option<seq<Action>> {
    if a.Some? && rest.Some? then Some([a.value] + rest.value) else None
  }

  lemma DecodeUnfold(b: seq<Byte>)
    requires NlaOk(b, 0) && Align(NlaLen(b, 0)) <= |b|
    ensures Decode(b) == Cons(DecodeOne(NlaType(b, 0), Payload(b, 0)), Decode(b[Align(NlaLen(b, 0))..]))
  {
    hide DecodeOne;
  }

  /** Bytes after an attribute do not change it. */
  lemma AttrBefore(a: seq<Byte>, b: seq<Byte>)
    requires NlaOk(a, 0) && Align(NlaLen(a, 0)) <= |a|
    ensures NlaOk(a + b, 0) && NlaLen(a + b, 0) == NlaLen(a, 0) && NlaType(a + b, 0) == NlaType(a, 0) && Payload(a + b, 0) == Payload(a, 0)
    ensures (a + b)[Align(NlaLen(a, 0))..] == a[Align(NlaLen(a, 0))..] + b
  {
    hide Align;
  }

  /** A sample holds its probability, then its actions; a set of a tunnel holds the internal key. */
  function DecodeOne(kind: nat, p: seq<Byte>): (r: Option<Action>)
    decreases |p|, 2
  {
    if kind == ACTION_SAMPLE then
      if NlaOk(p, 0) && NlaType(p, 0) == SAMPLE_PROBABILITY && NlaLen(p, 0) == 8 && NlaOk(p, 8) && NlaType(p, 8) == SAMPLE_ACTIONS && NlaLen(p, 8) == |p| - 8
      then
        match Decode(p[12..])
        case None => None
        case Some(actions) => Some(Sample(p[4..8], actions))
      else None
    else if kind == ACTION_SET && NlaOk(p, 0) && NlaType(p, 0) == KEY_IPV4_TUNNEL then
      if NlaLen(p, 0) == |p| == 4 + TUN_KEY_SIZE then Some(Tunnel(Payload(p, 0))) else None
    else Some(Plain(kind, p))
  }

  /** Lists one after the other are the trees one after the other. */
  lemma {:induction false} DecodeConcat(a: seq<Byte>, b: seq<Byte>)
    requires Decode(a).Some? && Decode(b).Some?
    ensures Decode(a + b) == Some(Decode(a).value + Decode(b).value)
    decreases |a|
  {
    hide Decode, DecodeOne, NlaType, Payload, NlaOk;
    DecodeNothing();
    if a == [] {
      assert a + b == b && [] + Decode(b).value == Decode(b).value;
    } else {
      DecodeNext(a, b);
      var n := Align(NlaLen(a, 0));
      DecodeConcat(a[n..], b);
      var first := DecodeOne(NlaType(a, 0), Payload(a, 0)).value;
      assert [first] + Decode(a[n..]).value + Decode(b).value == [first] + (Decode(a[n..]).value + Decode(b).value);
    }
  }

  lemma DecodeNothing()
    ensures Decode([]) == Some([]) && forall a :: Cons(a, Some([])) == if a.Some? then Some([a.value]) else None
  {
    assert forall x: Action :: [x] + [] == [x];
  }

  lemma DecodeNext(a: seq<Byte>, b: seq<Byte>)
    requires a != [] && Decode(a).Some?
    ensures NlaOk(a, 0) && Align(NlaLen(a, 0)) <= |a|
    ensures var one, n := DecodeOne(NlaType(a, 0), Payload(a, 0)), Align(NlaLen(a, 0));
            && one.Some? && Decode(a[n..]).Some? && Decode(a).value == [one.value] + Decode(a[n..]).value
            && Decode(a + b) == Cons(one, Decode(a[n..] + b))
  {
    hide DecodeOne, NlaType, Payload;
    DecodeUnfold(a);
    AttrBefore(a, b);
    DecodeUnfold(a + b);
  }

  /** One attribute, with any padding. */
  lemma DecodeAttr(n: nat, kind: nat, p: seq<Byte>, pad: seq<Byte>)
    requires n == 4 + |p| < 65536 && kind < 65536 && |pad| == Align(n) - n
    ensures var b := Header(n, kind) + p + pad;
            && NlaOk(b, 0) && NlaLen(b, 0) == n && NlaType(b, 0) == kind % 16384 && Payload(b, 0) == p && |b| == Align(n)
            && Decode(b) == Cons(DecodeOne(kind % 16384, p), Some([]))
  {
    hide DecodeOne, Header, Align;
    var h := Header(n, kind);
    var b := h + p + pad;
    assert U16(b, 0) == U16(h, 0) && U16(b, 2) == U16(h, 2);
    assert Payload(b, 0) == p;
    assert b[Align(n)..] == [];
    DecodeUnfold(b);
  }

  /** A patched sample decodes to its probability and what was copied into it. */
  lemma DecodeSample(prob: seq<Byte>, inner: seq<Byte>)
    requires |prob| == 4 && |inner| + 16 < 65536 && |inner| % 4 == 0 && Decode(inner).Some?
    ensures var p := Header(8, SAMPLE_PROBABILITY) + prob + (Header(4 + |inner|, SAMPLE_ACTIONS) + inner);
            Decode(Header(4 + |p|, ACTION_SAMPLE) + p) == Some([Sample(prob, Decode(inner).value)])
  {
    hide Header, Decode, DecodeOne, Align;
    var p := Header(8, SAMPLE_PROBABILITY) + prob + (Header(4 + |inner|, SAMPLE_ACTIONS) + inner);
    Aligned(4 + |p|);
    SamplePayload(prob, inner);
    var h := Header(4 + |p|, ACTION_SAMPLE);
    assert h + p == h + p + [];
    DecodeAttr(4 + |p|, ACTION_SAMPLE, p, []);
    DecodeNothing();
  }

  lemma SamplePayload(prob: seq<Byte>, inner: seq<Byte>)
    requires |prob| == 4 && |inner| + 16 < 65536 && Decode(inner).Some?
    ensures var p := Header(8, SAMPLE_PROBABILITY) + prob + (Header(4 + |inner|, SAMPLE_ACTIONS) + inner);
            DecodeOne(ACTION_SAMPLE, p) == Some(Sample(prob, Decode(inner).value))
  {
    hide Header, Decode, U16;
    var x, y := Header(8, SAMPLE_PROBABILITY) + prob, Header(4 + |inner|, SAMPLE_ACTIONS) + inner;
    AttrAt([], 8, SAMPLE_PROBABILITY, prob, y);
    AttrAt(x, 4 + |inner|, SAMPLE_ACTIONS, inner, []);
    var p := x + y;
    assert [] + x + y == p && x + y + [] == p;
    assert p[12..] == inner && p[4..8] == prob;
  }

  lemma DecodeTunnel(info: TunnelInfo)
    requires |info| == TUN_KEY_SIZE
    ensures Decode(Header(8 + |info|, ACTION_SET) + (Header(4 + |info|, KEY_IPV4_TUNNEL) + info)) == Some([Tunnel(info)])
  {
    hide Header, Decode;
    var h1 := Header(4 + |info|, KEY_IPV4_TUNNEL);
    var p := h1 + info;
    assert U16(p, 0) == U16(h1, 0) && U16(p, 2) == U16(h1, 2) && Payload(p, 0) == info;
    var h := Header(4 + |p|, ACTION_SET);
    assert h + p == h + p + [];
    DecodeAttr(4 + |p|, ACTION_SET, p, []);
    DecodeNothing();
  }

  // ----- the Netlink form, and what accepting it means

  datatype Status = Ok | Inval | Overflow | MsgSize | NoMem

  datatype Result<+T> = Good(value: T) | Bad(status: Status)

  /** What `struct sw_flow_key` says of the packets that the actions are for; addresses and ports as numbers. */
  datatype FlowKey = FlowKey(ethType: nat, ipProto: nat, ipFrag: nat, tpSrc: nat, tpDst: nat)

  /** The flow key, and the check of a user-space action's own attributes. */
  datatype Checks = Checks(userspace: seq<Byte> -> bool, key: FlowKey)

  const KEY_TUNNEL: nat := 16

  const KEY_PRIORITY: nat := 2
  const KEY_ETHERNET: nat := 4
  const KEY_IPV4: nat := 7
  const KEY_IPV6: nat := 8
  const KEY_TCP: nat := 9
  const KEY_UDP: nat := 10
  const KEY_SKB_MARK: nat := 15
  const KEY_SCTP: nat := 17

  const ETH_P_IP: nat := 0x0800
  const ETH_P_IPV6: nat := 0x86dd

  /** `validate_tp_port`. */
  predicate HasPorts(k: FlowKey) {
    (k.ethType == ETH_P_IP || k.ethType == ETH_P_IPV6) && (k.tpSrc != 0 || k.tpDst != 0)
  }

  /** What `validate_set` asks of a key other than a tunnel's. */
  predicate Settable(k: FlowKey, kind: nat, p: seq<Byte>) {
    if kind == KEY_PRIORITY || kind == KEY_SKB_MARK then |p| == 4
    else if kind == KEY_ETHERNET then |p| == 12
    else if kind == KEY_IPV4 then |p| == 12 && k.ethType == ETH_P_IP && k.ipProto != 0 && p[8] == k.ipProto && p[11] == k.ipFrag
    else if kind == KEY_IPV6 then
      |p| == 40 && k.ethType == ETH_P_IPV6 && k.ipProto != 0 && p[36] == k.ipProto && p[39] == k.ipFrag && p[32] == 0 && p[33] / 16 == 0
    else if kind == KEY_TCP then |p| == 4 && k.ipProto == 6 && HasPorts(k)
    else if kind == KEY_UDP then |p| == 4 && k.ipProto == 17 && HasPorts(k)
    else kind == KEY_SCTP && |p| == 4 && k.ipProto == 132 && HasPorts(k)
  }

  function U32(p: seq<Byte>): nat
    requires |p| == 4
  {
    U16(p, 0) + 65536 * U16(p, 2)
  }

  /** What `ovs_nla_copy_actions` makes of one attribute other than a sample. */
  function WantPlain(c: Checks, kind: nat, p: seq<Byte>): (r: Result<Action>) {
    if kind == ACTION_OUTPUT then if |p| == 4 && U32(p) < DP_MAX_PORTS then Good(Plain(kind, p)) else Bad(Inval)
    else if kind == ACTION_USERSPACE then if c.userspace(p) then Good(Plain(kind, p)) else Bad(Inval)
    else if kind == ACTION_PUSH_VLAN then
      if |p| == 4 && p[0] == 0x81 && p[1] == 0 && p[2] / 16 % 2 == 1 then Good(Plain(kind, p)) else Bad(Inval)
    else if kind == ACTION_POP_VLAN then if p == [] then Good(Plain(kind, p)) else Bad(Inval)
    else if kind == ACTION_SET then WantSet(c, p)
    else Bad(Inval)
  }

  /** `validate_set`: exactly one key, of a type that can be set. */
  function WantSet(c: Checks, p: seq<Byte>): (r: Result<Action>) {
    if !NlaOk(p, 0) || Align(NlaLen(p, 0)) != |p| then Bad(Inval)
    else if NlaType(p, 0) == KEY_TUNNEL then
      match ReadInfo(Payload(p, 0))
      case None => Bad(Inval)
      case Some(info) => Good(Tunnel(info))
    else if Settable(c.key, NlaType(p, 0), Payload(p, 0)) then Good(Plain(ACTION_SET, p))
    else Bad(Inval)
  }

  /** The attributes of a sample, in any order, each at most once and with nothing left over. */
  function ScanSample(p: seq<Byte>, pos: nat, prob: Option<seq<Byte>>, acts: Option<seq<Byte>>): (r: Option<(seq<Byte>, seq<Byte>)>)
    ensures r.Some? ==> |r.value.0| == 4 && (r.value.1 == [] || |r.value.1| >= NLA_HDRLEN)
    ensures r.Some? && (acts.None? || |acts.value| < |p|) ==> |r.value.1| < |p|
    decreases |p| - pos
  {
    if NlaOk(p, pos) then
      var kind, next := NlaType(p, pos), pos + Align(NlaLen(p, pos));
      if kind == SAMPLE_PROBABILITY && prob.None? then ScanSample(p, next, Some(Payload(p, pos)), acts)
      else if kind == SAMPLE_ACTIONS && acts.None? then ScanSample(p, next, prob, Some(Payload(p, pos)))
      else None
    else if pos != |p| then None
    else if prob.None? || |prob.value| != 4 || acts.None? then None
    else if acts.value != [] && |acts.value| < NLA_HDRLEN then None
    else Some((prob.value, acts.value))
  }

  function Prepend(done: seq<Action>, r: Result<seq<Action>>): Result<seq<Action>> {
    if r.Good? then Good(done + r.value) else r
  }

  /** The tree of the action list in 'b' from 'pos' on, or the first error in it. */
  function WantFrom(c: Checks, b: seq<Byte>, pos: nat, depth: nat): (r: Result<seq<Action>>)
    decreases |b|, 1, |b| - pos
  {
    if !NlaOk(b, pos) then if pos < |b| then Bad(Inval) else Good([])
    else
      match WantOne(c, NlaType(b, pos), Payload(b, pos), depth)
      case Bad(e) => Bad(e)
      case Good(a) => Prepend([a], WantFrom(c, b, pos + Align(NlaLen(b, pos)), depth))
  }

  function WantOne(c: Checks, kind: nat, p: seq<Byte>, depth: nat): (r: Result<Action>)
    decreases |p|, 3, 0
  {
    if kind != ACTION_SAMPLE then WantPlain(c, kind, p)
    else
      match ScanSample(p, 0, None, None)
      case None => Bad(Inval)
      case Some((prob, acts)) =>
        match Want(c, acts, depth + 1)
        case Bad(e) => Bad(e)
        case Good(actions) => Good(Sample(prob, actions))
  }

  /** The tree that a client asks for, if it is acceptable: `ovs_nla_copy_actions` without memory limits. */
  function Want(c: Checks, b: seq<Byte>, depth: nat): (r: Result<seq<Action>>)
    decreases |b|, 2, 0
  {
    if depth >= SAMPLE_ACTION_DEPTH then Bad(Overflow) else WantFrom(c, b, 0, depth)
  }
}
