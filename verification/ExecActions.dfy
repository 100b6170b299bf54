/**
 `do_execute_actions` of `datapath/actions.c`: output is put off to the next action, so
 that the last output can use the packet itself instead of a copy.
 */
module ExecActions {
  import opened ActionCodec
  import opened Netlink

  type Pkt = seq<Byte>

  /** What the world sees: a packet sent to a port, or handed to user space. */
  datatype Event = Sent(port: nat, pkt: Pkt) | Upcall(arg: seq<Byte>, pkt: Pkt)

  /** How actions change packets, the random numbers to come, and the ports there are. */
  datatype World = World(change: (Action, Pkt) -> Pkt, random: nat -> nat, ports: set<nat>)

  /** What running actions leaves: the events, the packet, and the random numbers used up. */
  datatype Outcome = Outcome(events: seq<Event>, pkt: Pkt, drawn: nat)

  function Then(o: Outcome, more: Outcome): Outcome {
    Outcome(o.events + more.events, more.pkt, more.drawn)
  }

  function Send(w: World, port: int, pkt: Pkt): seq<Event> {
    if port >= 0 && port in w.ports then [Sent(port, pkt)] else []
  }

  /** A 32-bit number as the code's `int` holds it. */
  function AsInt(x: nat): int
    requires x < 0x1_0000_0000
  {
    if x < 0x8000_0000 then x else x - 0x1_0000_0000
  }

  /** No output is put off. */
  const NO_PORT: int := -1

  // ----- immediate output

  /** An interpreter that sends a copy at each output. */
  function Eval(w: World, acts: seq<Action>, pkt: Pkt, drawn: nat): (o: Outcome)
    decreases acts, 0
  {
    if acts == [] then Outcome([], pkt, drawn)
    else
      var o := EvalOne(w, acts[0], pkt, drawn);
      Then(o, Eval(w, acts[1..], o.pkt, o.drawn))
  }

  function EvalOne(w: World, a: Action, pkt: Pkt, drawn: nat): (o: Outcome)
    decreases a, 1
  {
    match a
    case Plain(kind, p) =>
      if kind == ACTION_OUTPUT then Outcome(if |p| == 4 then Send(w, U32(p), pkt) else [], pkt, drawn)
      else if kind == ACTION_USERSPACE then Outcome([Upcall(p, pkt)], pkt, drawn)
      else Outcome([], w.change(a, pkt), drawn)
    case Tunnel(_) => Outcome([], w.change(a, pkt), drawn)
    case Sample(prob, actions) =>
      if |prob| == 4 && w.random(drawn) < U32(prob) then Eval(w, actions, pkt, drawn + 1) else Outcome([], pkt, drawn + 1)
  }

  /** What execution relies on and validation has checked: port numbers and probabilities are 32 bits. */
  predicate Ready(acts: seq<Action>)
    decreases acts, 0
  {
    acts == [] || (ReadyOne(acts[0]) && Ready(acts[1..]))
  }

  predicate ReadyOne(a: Action)
    decreases a, 1
  {
    match a
    case Plain(kind, p) => kind == ACTION_OUTPUT ==> |p| == 4 && U32(p) < DP_MAX_PORTS
    case Tunnel(_) => true
    case Sample(prob, actions) => |prob| == 4 && Ready(actions)
  }

  /** Every accepted program can be executed. */
  lemma {:induction false} AcceptedIsReady(c: Checks, b: seq<Byte>, pos: nat, depth: nat)
    requires WantFrom(c, b, pos, depth).Good?
    ensures Ready(WantFrom(c, b, pos, depth).value)
    decreases |b|, 1, |b| - pos
  {
    hide WantPlain, ScanSample, Align;
    if NlaOk(b, pos) {
      AcceptedOneIsReady(c, NlaType(b, pos), Payload(b, pos), depth);
      AcceptedIsReady(c, b, pos + Align(NlaLen(b, pos)), depth);
      var a, rest := WantOne(c, NlaType(b, pos), Payload(b, pos), depth).value, WantFrom(c, b, pos + Align(NlaLen(b, pos)), depth).value;
      assert ([a] + rest)[1..] == rest;
    }
  }

  lemma {:induction false} AcceptedOneIsReady(c: Checks, kind: nat, p: seq<Byte>, depth: nat)
    requires WantOne(c, kind, p, depth).Good?
    ensures ReadyOne(WantOne(c, kind, p, depth).value)
    decreases |p|, 3, 0
  {
    if kind == ACTION_SAMPLE {
      var (prob, acts) := ScanSample(p, 0, None, None).value;
      AcceptedIsReady(c, acts, 0, depth + 1);
    }
  }

  // ----- deferred output

  class Skb {
    var pkt: Pkt

    constructor (pkt: Pkt)
      ensures this.pkt == pkt
    {
      this.pkt := pkt;
    }
  }

  class Datapath {
    const w: World
    var drawn: nat
    var trace: seq<Event>
    /** The packet buffers that have not been freed or sent. */
    ghost var live: set<Skb>

    constructor (w: World)
      ensures this.w == w && drawn == 0 && trace == [] && live == {}
    {
      this.w, drawn, trace, live := w, 0, [], {};
    }

    /** `do_output`: the buffer is sent or freed. */
    method DoOutput(skb: Skb, port: int)
      requires skb in live
      modifies this
      ensures trace == old(trace) + Send(w, port, skb.pkt) && live == old(live) - {skb} && drawn == old(drawn)
    {
      if port >= 0 && port in w.ports {
        trace := trace + [Sent(port, skb.pkt)];
      }
      live := live - {skb};
    }

    /** `skb_clone`. */
    method Clone(skb: Skb) returns (copy: Skb)
      modifies this`live
      ensures fresh(copy) && copy.pkt == skb.pkt && live == old(live) + {copy}
    {
      copy := new Skb(skb.pkt);
      live := live + {copy};
    }

    /** Sends the output that was put off, if there is one, on a copy. */
    method Settle(skb: Skb, prev: int)
      requires skb in live
      modifies this
      ensures trace == old(trace) + Due(w, prev, skb.pkt) && live == old(live) && drawn == old(drawn)
    {
      if prev != NO_PORT {
        var copy := Clone(skb);
        DoOutput(copy, prev);
      }
    }

    /** `sample`. */
    method RunSample(skb: Skb, p: seq<Byte>)
      requires skb in live && DecodeOne(ACTION_SAMPLE, p).Some? && ReadyOne(DecodeOne(ACTION_SAMPLE, p).value)
      modifies this, skb
      ensures var o := EvalOne(w, DecodeOne(ACTION_SAMPLE, p).value, old(skb.pkt), old(drawn));
              trace == old(trace) + o.events && skb.pkt == o.pkt && drawn == o.drawn && live == old(live)
      decreases |p|, 1
    {
      hide Eval, Ready, Decode;
      var lucky := w.random(drawn) < U32(p[4..8]);
      drawn := drawn + 1;
      if lucky {
        Execute(skb, p[12..], true);
      }
    }

    /** One action other than an output. */
    method RunOne(skb: Skb, kind: nat, p: seq<Byte>)
      requires skb in live && kind != ACTION_OUTPUT && DecodeOne(kind, p).Some? && ReadyOne(DecodeOne(kind, p).value)
      modifies this, skb
      ensures var o := EvalOne(w, DecodeOne(kind, p).value, old(skb.pkt), old(drawn));
              trace == old(trace) + o.events && skb.pkt == o.pkt && drawn == o.drawn && live == old(live)
      decreases |p|, 2
    {
      hide Eval, Ready, Decode;
      if kind == ACTION_SAMPLE {
        RunSample(skb, p);
      } else if kind == ACTION_USERSPACE {
        trace := trace + [Upcall(p, skb.pkt)];
      } else {
        skb.pkt := w.change(DecodeOne(kind, p).value, skb.pkt);
      }
    }

    /**
     `do_execute_actions`: the events are those of immediate output, and the buffer is
     used up exactly once, unless it is to be kept.
     */
    method Execute(skb: Skb, b: seq<Byte>, keep: bool)
      requires skb in live && Decode(b).Some? && Ready(Decode(b).value)
      modifies this, skb
      ensures var o := Eval(w, Decode(b).value, old(skb.pkt), old(drawn));
              && trace == old(trace) + o.events && drawn == o.drawn
              && if keep then live == old(live) && skb.pkt == o.pkt else live == old(live) - {skb}
      decreases |b|, 3
    {
      hide Eval, EvalOne, Ready, ReadyOne, Decode, DecodeOne, NlaType, Payload, Align, Due, NlaOk;
      var pos, prev: int := 0, NO_PORT;
      ghost var o := Eval(w, Decode(b).value, skb.pkt, drawn);
      Begin(w, b, skb.pkt, drawn);
      while pos < |b|
        invariant pos <= |b| && Decode(b[pos..]).Some? && Ready(Decode(b[pos..]).value) && live == old(live)
        invariant Left(w, trace, prev, Decode(b[pos..]).value, skb.pkt, drawn) == Outcome(old(trace) + o.events, o.pkt, o.drawn)
        decreases |b| - pos
      {
        Unfold(b, pos);
        ghost var rest := Decode(b[pos + Align(NlaLen(b, pos))..]).value;
        ghost var a := DecodeOne(NlaType(b, pos), Payload(b, pos)).value;
        SettleLeft(w, trace, prev, [a] + rest, skb.pkt, drawn);
        Settle(skb, prev);
        prev := NO_PORT;
        var kind, p := NlaType(b, pos), Payload(b, pos);
        StepLeft(w, trace, a, rest, skb.pkt, drawn);
        if kind == ACTION_OUTPUT {
          OutputLeft(w, trace, p, rest, skb.pkt, drawn);
          prev := AsInt(U32(p));
        } else {
          RunOne(skb, kind, p);
        }
        pos := pos + Align(NlaLen(b, pos));
      }
      AtEnd(w, trace, prev, b, skb.pkt, drawn);
      if prev != NO_PORT {
        if keep {
          var copy := Clone(skb);
          DoOutput(copy, prev);
        } else {
          DoOutput(skb, prev);
        }
      } else if !keep {
        live := live - {skb};
      }
    }
  }

  /** The events of an output that was put off. */
  function Due(w: World, prev: int, pkt: Pkt): seq<Event> {
    if prev != NO_PORT then Send(w, prev, pkt) else []
  }

  /** All events in the end: those so far, the one put off, and those of the actions that are left. */
  function Left(w: World, trace: seq<Event>, prev: int, acts: seq<Action>, pkt: Pkt, drawn: nat): Outcome {
    var o := Eval(w, acts, pkt, drawn);
    Outcome(trace + Due(w, prev, pkt) + o.events, o.pkt, o.drawn)
  }

  lemma Begin(w: World, b: seq<Byte>, pkt: Pkt, drawn: nat)
    requires Decode(b).Some?
    ensures b[0..] == b
    ensures forall trace :: var o := Eval(w, Decode(b).value, pkt, drawn);
              Left(w, trace, NO_PORT, Decode(b).value, pkt, drawn) == Outcome(trace + o.events, o.pkt, o.drawn)
  {
    assert forall trace: seq<Event> :: trace + [] == trace;
  }

  lemma SettleLeft(w: World, trace: seq<Event>, prev: int, acts: seq<Action>, pkt: Pkt, drawn: nat)
    ensures Left(w, trace + Due(w, prev, pkt), NO_PORT, acts, pkt, drawn) == Left(w, trace, prev, acts, pkt, drawn)
  {
    hide Eval;
  }

  lemma Unfold(b: seq<Byte>, pos: nat)
    requires pos < |b| && Decode(b[pos..]).Some? && Ready(Decode(b[pos..]).value)
    ensures NlaOk(b, pos) && pos + Align(NlaLen(b, pos)) <= |b|
    ensures var one, rest := DecodeOne(NlaType(b, pos), Payload(b, pos)), Decode(b[pos + Align(NlaLen(b, pos))..]);
            && one.Some? && rest.Some? && Decode(b[pos..]).value == [one.value] + rest.value && ReadyOne(one.value) && Ready(rest.value)
    ensures |Payload(b, pos)| < |b|
  {
    hide DecodeOne, ReadyOne, Decode, NlaType, Align, NlaLen;
    var c := b[pos..];
    DecodeNext(c, []);
    AttrShift(b, pos);
    assert c[Align(NlaLen(c, 0))..] == b[pos + Align(NlaLen(b, pos))..];
    var one, rest := DecodeOne(NlaType(b, pos), Payload(b, pos)), Decode(b[pos + Align(NlaLen(b, pos))..]);
    assert ([one.value] + rest.value)[1..] == rest.value;
  }

  lemma StepLeft(w: World, trace: seq<Event>, a: Action, rest: seq<Action>, pkt: Pkt, drawn: nat)
    ensures var o := EvalOne(w, a, pkt, drawn);
            Left(w, trace, NO_PORT, [a] + rest, pkt, drawn) == Left(w, trace + o.events, NO_PORT, rest, o.pkt, o.drawn)
  {
    hide EvalOne;
    var o := EvalOne(w, a, pkt, drawn);
    assert ([a] + rest)[1..] == rest;
    var more := Eval(w, rest, o.pkt, o.drawn);
    assert trace + [] + (o.events + more.events) == trace + o.events + [] + more.events;
  }

  /**
   An output can wait: nothing happens between it and the next action.  The bound on port
   numbers keeps them apart from the mark for no port.
   */
  lemma OutputLeft(w: World, trace: seq<Event>, p: seq<Byte>, rest: seq<Action>, pkt: Pkt, drawn: nat)
    requires DecodeOne(ACTION_OUTPUT, p).Some? && ReadyOne(DecodeOne(ACTION_OUTPUT, p).value)
    ensures |p| == 4 && U32(p) < 0x1_0000_0000
    ensures var o := EvalOne(w, DecodeOne(ACTION_OUTPUT, p).value, pkt, drawn);
            Left(w, trace + o.events, NO_PORT, rest, o.pkt, o.drawn) == Left(w, trace, AsInt(U32(p)), rest, pkt, drawn)
  {
    hide Eval, Decode;
  }

  /** A port number survives being put off, in every datapath, if and only if it is no negative `int`. */
  lemma PortSurvives(x: nat)
    requires x < 0x1_0000_0000
    ensures (forall w: World, pkt: Pkt :: Due(w, AsInt(x), pkt) == Send(w, x, pkt)) <==> x < 0x8000_0000
  {
    var w := World((a, p) => p, n => 0, {x});
    assert Send(w, x, []) == [Sent(x, [])];
    if x >= 0x8000_0000 { assert Due(w, AsInt(x), []) == []; }
  }

  lemma AtEnd(w: World, trace: seq<Event>, prev: int, b: seq<Byte>, pkt: Pkt, drawn: nat)
    ensures Decode(b[|b|..]) == Some([])
    ensures Left(w, trace, prev, [], pkt, drawn) == Outcome(if prev != NO_PORT then trace + Send(w, prev, pkt) else trace, pkt, drawn)
  {
    DecodeNothing();
    assert b[|b|..] == [];
    assert trace + Due(w, prev, pkt) + [] == trace + Due(w, prev, pkt) && trace + [] == trace;
  }

  // ----- what running actions means

  /** Actions one after the other: the later ones start from what the earlier ones leave. */
  lemma {:induction false} EvalConcat(w: World, a: seq<Action>, b: seq<Action>, pkt: Pkt, drawn: nat)
    ensures var o := Eval(w, a, pkt, drawn); Eval(w, a + b, pkt, drawn) == Then(o, Eval(w, b, o.pkt, o.drawn))
    decreases a
  {
    hide EvalOne;
    if a == [] {
      assert a + b == b;
      var more := Eval(w, b, pkt, drawn);
      assert [] + more.events == more.events;
    } else {
      var one := EvalOne(w, a[0], pkt, drawn);
      assert (a + b)[1..] == a[1..] + b;
      EvalConcat(w, a[1..], b, one.pkt, one.drawn);
      var mid := Eval(w, a[1..], one.pkt, one.drawn);
      var last := Eval(w, b, mid.pkt, mid.drawn);
      assert one.events + (mid.events + last.events) == one.events + mid.events + last.events;
    }
  }

  /** An action among others: what happens before it, by it, and after it. */
  lemma EvalAmong(w: World, a: seq<Action>, x: Action, b: seq<Action>, pkt: Pkt, drawn: nat)
    ensures var o := Eval(w, a, pkt, drawn);
            var one := EvalOne(w, x, o.pkt, o.drawn);
            var rest := Eval(w, b, one.pkt, one.drawn);
            Eval(w, a + [x] + b, pkt, drawn) == Outcome(o.events + one.events + rest.events, rest.pkt, rest.drawn)
  {
    hide EvalOne;
    EvalConcat(w, a + [x], b, pkt, drawn);
    EvalConcat(w, a, [x], pkt, drawn);
    var o := Eval(w, a, pkt, drawn);
    SingleAction(w, x, o.pkt, o.drawn);
  }

  lemma SingleAction(w: World, x: Action, pkt: Pkt, drawn: nat)
    ensures Eval(w, [x], pkt, drawn) == EvalOne(w, x, pkt, drawn)
  {
    hide EvalOne;
    var o := EvalOne(w, x, pkt, drawn);
    assert [x][1..] == [];
    assert Eval(w, [], o.pkt, o.drawn) == Outcome([], o.pkt, o.drawn);
    assert o.events + [] == o.events;
  }

  /**
   Each user-space action gives exactly one upcall, with its own argument and the packet as
   the actions before it have left it, and changes nothing.
   */
  lemma UpcallOnce(w: World, a: seq<Action>, p: seq<Byte>, b: seq<Action>, pkt: Pkt, drawn: nat)
    ensures var o := Eval(w, a, pkt, drawn);
            var rest := Eval(w, b, o.pkt, o.drawn);
            Eval(w, a + [Plain(ACTION_USERSPACE, p)] + b, pkt, drawn) == Outcome(o.events + [Upcall(p, o.pkt)] + rest.events, rest.pkt, rest.drawn)
  {
    hide Eval;
    EvalAmong(w, a, Plain(ACTION_USERSPACE, p), b, pkt, drawn);
  }

  /** Each output sends the packet as it then is, once, if the port exists, and changes nothing. */
  lemma OutputOnce(w: World, a: seq<Action>, p: seq<Byte>, b: seq<Action>, pkt: Pkt, drawn: nat)
    requires |p| == 4
    ensures var o := Eval(w, a, pkt, drawn);
            var rest := Eval(w, b, o.pkt, o.drawn);
            Eval(w, a + [Plain(ACTION_OUTPUT, p)] + b, pkt, drawn) ==
              Outcome(o.events + (if U32(p) in w.ports then [Sent(U32(p), o.pkt)] else []) + rest.events, rest.pkt, rest.drawn)
  {
    hide Eval;
    EvalAmong(w, a, Plain(ACTION_OUTPUT, p), b, pkt, drawn);
  }

  /** Any other plain action only changes the packet for those after it. */
  lemma ChangeOnly(w: World, a: seq<Action>, x: Action, b: seq<Action>, pkt: Pkt, drawn: nat)
    requires x.Tunnel? || (x.Plain? && x.kind != ACTION_OUTPUT && x.kind != ACTION_USERSPACE)
    ensures var o := Eval(w, a, pkt, drawn);
            var rest := Eval(w, b, w.change(x, o.pkt), o.drawn);
            Eval(w, a + [x] + b, pkt, drawn) == Outcome(o.events + rest.events, rest.pkt, rest.drawn)
  {
    hide Eval;
    EvalAmong(w, a, x, b, pkt, drawn);
    var o := Eval(w, a, pkt, drawn);
    assert o.events + [] == o.events;
  }

  // ----- how often a sample runs

  /** The world in which the random number to be drawn at 'n' is 'r'. */
  function WithDraw(w: World, n: nat, r: nat): World {
    w.(random := m => Draw(w, n, r, m))
  }

  function Draw(w: World, n: nat, r: nat, m: nat): nat {
    if m == n then r else w.random(m)
  }

  /** What was drawn before plays no part. */
  lemma {:induction false} EvalLater(w: World, n: nat, r: nat, acts: seq<Action>, pkt: Pkt, drawn: nat)
    requires drawn > n
    ensures Eval(WithDraw(w, n, r), acts, pkt, drawn) == Eval(w, acts, pkt, drawn) && Eval(w, acts, pkt, drawn).drawn >= drawn
    decreases acts, 0
  {
    hide EvalOne, WithDraw;
    if acts != [] {
      EvalOneLater(w, n, r, acts[0], pkt, drawn);
      var o := EvalOne(w, acts[0], pkt, drawn);
      EvalLater(w, n, r, acts[1..], o.pkt, o.drawn);
    }
  }

  lemma {:induction false} EvalOneLater(w: World, n: nat, r: nat, a: Action, pkt: Pkt, drawn: nat)
    requires drawn > n
    ensures EvalOne(WithDraw(w, n, r), a, pkt, drawn) == EvalOne(w, a, pkt, drawn) && EvalOne(w, a, pkt, drawn).drawn >= drawn
    decreases a, 1
  {
    hide Eval;
    if a.Sample? { EvalLater(w, n, r, a.actions, pkt, drawn + 1); }
  }

  /** The outcome of a sample if the number drawn for it is 'r'. */
  function SampleWith(w: World, prob: seq<Byte>, acts: seq<Action>, pkt: Pkt, drawn: nat, r: nat): Outcome {
    Eval(WithDraw(w, drawn, r), [Sample(prob, acts)], pkt, drawn)
  }

  /** A sample either runs all of its actions or does nothing but draw. */
  lemma SampleRuns(w: World, prob: seq<Byte>, acts: seq<Action>, pkt: Pkt, drawn: nat, r: nat)
    requires |prob| == 4
    ensures SampleWith(w, prob, acts, pkt, drawn, r) == if r < U32(prob) then Eval(w, acts, pkt, drawn + 1) else Outcome([], pkt, drawn + 1)
  {
    hide Eval;
    SingleAction(WithDraw(w, drawn, r), Sample(prob, acts), pkt, drawn);
    EvalLater(w, drawn, r, acts, pkt, drawn + 1);
  }

  function Numbers(n: nat): (s: set<nat>)
    ensures |s| == n && forall r: nat :: r in s <==> r < n
  {
    if n == 0 then {} else Numbers(n - 1) + {n - 1}
  }

  /**
   The probability of a sample is what it says: of the 2^32 numbers that can be drawn, the
   actions take effect for exactly as many as the probability.
   */
  lemma SampleProbability(w: World, prob: seq<Byte>, acts: seq<Action>, pkt: Pkt, drawn: nat)
    requires |prob| == 4 && Eval(w, acts, pkt, drawn + 1).events != []
    ensures |set r: nat | r < 0x1_0000_0000 && SampleWith(w, prob, acts, pkt, drawn, r).events != []| == U32(prob)
  {
    hide Eval, SampleWith;
    forall r: nat ensures SampleWith(w, prob, acts, pkt, drawn, r).events != [] <==> r < U32(prob) { SampleRuns(w, prob, acts, pkt, drawn, r); }
    U32Fits(prob);
    assert (set r: nat | r < 0x1_0000_0000 && SampleWith(w, prob, acts, pkt, drawn, r).events != []) == Numbers(U32(prob));
  }

  lemma U32Fits(p: seq<Byte>)
    requires |p| == 4
    ensures U32(p) < 0x1_0000_0000
  {
  }
}
