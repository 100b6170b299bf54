/**
 Two BFD sessions over a network that loses, duplicates and reorders messages but does
 not make them up.
 */
module BfdPair {
  import opened Bfd

  datatype End = A | B

  function Peer(e: End): End {
    if e == A then B else A
  }

  /** Both sessions, and every message that each of them ever sent. */
  datatype World = World(a: Session, b: Session, sentByA: set<Msg>, sentByB: set<Msg>)

  function At(w: World, e: End): Session {
    if e == A then w.a else w.b
  }

  function SentBy(w: World, e: End): set<Msg> {
    if e == A then w.sentByA else w.sentByB
  }

  datatype Event =
    | Send(e: End, now: int)
    | Deliver(e: End, p: Packet, now: int, rxPackets: nat)
    | Tick(e: End, now: int, rxPackets: nat)
    | Reconfigure(e: End, c: Config)

  /** The other end does nothing, and nothing more is sent unless 'more' says so. */
  predicate OnlyAt(w: World, w': World, e: End, more: set<Msg>) {
    At(w', Peer(e)) == At(w, Peer(e)) && SentBy(w', Peer(e)) == SentBy(w, Peer(e)) && SentBy(w', e) == SentBy(w, e) + more
  }

  predicate Step(w: World, ev: Event, w': World) {
    match ev
    case Send(e, now) => OnlyAt(w, w', e, {MessageOf(At(w, e))}) && Sent(At(w, e), now, At(w', e))
    case Deliver(e, p, now, rx) =>
      && OnlyAt(w, w', e, {}) && (p.msg.Some? ==> p.msg.value in SentBy(w, Peer(e)))
      && Processed(At(w, e), p, now, rx, At(w', e))
    case Tick(e, now, rx) => OnlyAt(w, w', e, {}) && Ran(At(w, e), now, rx, At(w', e))
    case Reconfigure(e, c) => OnlyAt(w, w', e, {}) && Configured(At(w, e), c, At(w', e))
  }

  /** Both sessions are down and have heard and said nothing. */
  predicate Start(w: World) {
    && w.sentByA == {} && w.sentByB == {} && w.a.disc != w.b.disc
    && forall e :: At(w, e).disc != 0 && At(w, e).mult == 3 && At(w, e).state == Down && At(w, e).rmtDisc == 0 && SessionOk(At(w, e))
  }

  predicate IsRun(run: seq<World>, events: seq<Event>) {
    |run| == |events| + 1 && Start(run[0]) && forall k :: 0 <= k < |events| ==> Step(run[k], events[k], run[k + 1])
  }

  // ----- one session keeps its invariant

  lemma ProcessedOk(s: Session, p: Packet, now: int, rx: nat, s': Session)
    requires SessionOk(s) && Processed(s, p, now, rx, s')
    ensures SessionOk(s')
  {
  }

  lemma RanOk(s: Session, now: int, rx: nat, s': Session)
    requires SessionOk(s) && Ran(s, now, rx, s')
    ensures SessionOk(s') && (Above(s'.state) ==> s'.detectTime > now && s'.detectTime == s.detectTime)
  {
  }

  lemma ConfiguredOk(s: Session, c: Config, s': Session)
    requires SessionOk(s) && Configured(s, c, s')
    ensures SessionOk(s')
  {
  }

  lemma StepOk(w: World, ev: Event, w': World)
    requires Step(w, ev, w') && forall e :: SessionOk(At(w, e))
    ensures forall e :: SessionOk(At(w', e)) && At(w', e).disc == At(w, e).disc
  {
    hide SessionOk, Processed, Ran, Configured;
    forall e ensures SessionOk(At(w', e)) && At(w', e).disc == At(w, e).disc {
      if e == ev.e { SelfOk(w, ev, w'); }
    }
  }

  lemma SelfOk(w: World, ev: Event, w': World)
    requires Step(w, ev, w') && SessionOk(At(w, ev.e))
    ensures SessionOk(At(w', ev.e)) && At(w', ev.e).disc == At(w, ev.e).disc
  {
    match ev
    case Send(_, _) =>
    case Deliver(e, p, now, rx) => ProcessedOk(At(w, e), p, now, rx, At(w', e));
    case Tick(e, now, rx) => RanOk(At(w, e), now, rx, At(w', e));
    case Reconfigure(e, c) => ConfiguredOk(At(w, e), c, At(w', e));
  }

  /** In every state of every run both sessions are consistent and keep their discriminators. */
  lemma {:induction false} RunOk(run: seq<World>, events: seq<Event>, k: nat)
    requires IsRun(run, events) && k < |run|
    ensures forall e :: SessionOk(At(run[k], e)) && At(run[k], e).disc == At(run[0], e).disc
  {
    hide SessionOk, Step;
    if k > 0 {
      RunOk(run, events, k - 1);
      assert Step(run[k - 1], events[k - 1], run[k - 1 + 1]);
      StepOk(run[k - 1], events[k - 1], run[k]);
    }
  }

  // ----- where messages and discriminators come from

  /** Event 'j' is 'e' sending 'm'. */
  predicate SendsAt(run: seq<World>, events: seq<Event>, j: nat, e: End, m: Msg)
    requires IsRun(run, events)
  {
    j < |events| && events[j].Send? && events[j].e == e && m == MessageOf(At(run[j], e))
  }

  /** Event 'i' is 'e' accepting a message that its peer had sent before. */
  predicate HearsAt(run: seq<World>, events: seq<Event>, i: nat, e: End)
    requires IsRun(run, events)
  {
    && i < |events| && events[i].Deliver? && events[i].e == e && Accepts(At(run[i], e).disc, events[i].p)
    && events[i].p.msg.value in SentBy(run[i], Peer(e))
  }

  /** A message in the network was sent earlier in the run. */
  lemma {:induction false} MessageWasSent(run: seq<World>, events: seq<Event>, k: nat, e: End, m: Msg)
    requires IsRun(run, events) && k < |run| && m in SentBy(run[k], e)
    ensures exists j :: 0 <= j < k && SendsAt(run, events, j, e, m)
  {
    hide Start, Processed, Ran, Configured, Sent;
    if k == 0 { StartsEmpty(run[0], e); } else {
      assert Step(run[k - 1], events[k - 1], run[k - 1 + 1]);
      if m in SentBy(run[k - 1], e) {
        MessageWasSent(run, events, k - 1, e, m);
      } else {
        assert SendsAt(run, events, k - 1, e, m);
      }
    }
  }

  lemma StartsEmpty(w: World, e: End)
    requires Start(w)
    ensures SentBy(w, e) == {} && At(w, e).rmtDisc == 0
  {
  }

  /** A session that knows a remote discriminator has accepted a message of its peer. */
  lemma {:induction false} PeerWasHeard(run: seq<World>, events: seq<Event>, k: nat, e: End)
    requires IsRun(run, events) && k < |run| && At(run[k], e).rmtDisc != 0
    ensures exists i :: 0 <= i < k && HearsAt(run, events, i, e)
  {
    hide Start, MessageOf, Transition;
    if k == 0 { StartsEmpty(run[0], e); } else {
      assert Step(run[k - 1], events[k - 1], run[k - 1 + 1]);
      if At(run[k - 1], e).rmtDisc != 0 {
        PeerWasHeard(run, events, k - 1, e);
      } else {
        assert HearsAt(run, events, k - 1, e);
      }
    }
  }

  /** Only an accepted message with state Init or Up brings a session up, and it names the session. */
  lemma UpByMessage(w: World, ev: Event, w': World, e: End)
    requires Step(w, ev, w') && At(w, e).state != Up && At(w', e).state == Up && SessionOk(At(w, e))
    ensures ev.Deliver? && ev.e == e && Accepts(At(w, e).disc, ev.p) && ev.p.msg.value in SentBy(w, Peer(e))
    ensures Above(ev.p.msg.value.state) && ev.p.msg.value.yourDisc == At(w, e).disc
  {
  }

  /**
   Handshake safety: a session enters Up only on a message that its peer sent in Init or
   Up, addressed to it, after the peer had accepted one of the session's own messages.
   */
  lemma UpNeedsHandshake(run: seq<World>, events: seq<Event>, k: nat, e: End)
    requires IsRun(run, events) && k < |events| && At(run[k], e).state != Up && At(run[k + 1], e).state == Up
    ensures exists i, j ::
              && 0 <= i < j < k
              && events[k].Deliver? && events[k].p.msg.Some?
              && SendsAt(run, events, j, Peer(e), events[k].p.msg.value)
              && Above(At(run[j], Peer(e)).state) && At(run[j], Peer(e)).rmtDisc == At(run[0], e).disc
              && HearsAt(run, events, i, Peer(e))
  {
    hide Start, Processed, Ran, Configured, Sent, SessionOk, Accepts;
    assert Step(run[k], events[k], run[k + 1]);
    RunOk(run, events, k);
    UpByMessage(run[k], events[k], run[k + 1], e);
    HasMsg(At(run[k], e).disc, events[k].p);
    var m := events[k].p.msg.value;
    MessageWasSent(run, events, k, Peer(e), m);
    var j :| 0 <= j < k && SendsAt(run, events, j, Peer(e), m);
    RunOk(run, events, j);
    AboveKnows(At(run[j], Peer(e)));
    PeerWasHeard(run, events, j, Peer(e));
  }

  lemma HasMsg(disc: nat, p: Packet)
    requires Accepts(disc, p)
    ensures p.msg.Some?
  {
  }

  lemma AboveKnows(s: Session)
    requires SessionOk(s) && Above(s.state)
    ensures s.rmtDisc != 0
  {
  }

  /** The detection time stays what the last accepted message made it. */
  lemma {:induction false} DetectTimeFixed(run: seq<World>, events: seq<Event>, i: nat, k: nat, e: End)
    requires IsRun(run, events) && i <= k < |run| && forall j :: i <= j < k ==> !HearsAt(run, events, j, e)
    ensures At(run[k], e).detectTime == At(run[i], e).detectTime
  {
    hide Start, MessageOf, Transition;
    if i < k {
      DetectTimeFixed(run, events, i, k - 1, e);
      assert Step(run[k - 1], events[k - 1], run[k - 1 + 1]);
      assert !HearsAt(run, events, k - 1, e);
    }
  }

  /** After a session's run, it is above Down only if its last accepted message has not expired. */
  lemma AboveMeansAlive(run: seq<World>, events: seq<Event>, i: nat, k: nat, e: End, now: int, rx: nat)
    requires IsRun(run, events) && i < k < |events| && events[k] == Tick(e, now, rx) && Above(At(run[k + 1], e).state)
    requires HearsAt(run, events, i, e) && forall j :: i < j < k ==> !HearsAt(run, events, j, e)
    ensures At(run[k + 1], e).detectTime == At(run[i + 1], e).detectTime > now
  {
    hide Start, MessageOf, Transition, SessionOk, Processed, HearsAt;
    DetectTimeFixed(run, events, i + 1, k, e);
    RunOk(run, events, k);
    assert Step(run[k], events[k], run[k + 1]);
    RanOk(At(run[k], e), now, rx, At(run[k + 1], e));
  }

  // ----- poll sequences (sections 6.5 and 6.8.3 of RFC 5880)

  /** The message that 'e' accepts at 'k'. */
  function Heard(run: seq<World>, events: seq<Event>, k: nat, e: End): Msg
    requires IsRun(run, events) && HearsAt(run, events, k, e)
  {
    events[k].p.msg.value
  }

  /** A poll sequence starts only above Down, by itself or by a new configuration, and not while a Final is owed. */
  lemma PollStarts(run: seq<World>, events: seq<Event>, k: nat, e: End)
    requires IsRun(run, events) && k < |events| && !At(run[k], e).poll && At(run[k + 1], e).poll
    ensures events[k].e == e && (events[k].Tick? || events[k].Reconfigure?)
    ensures Above(At(run[k + 1], e).state) && !At(run[k + 1], e).final && At(run[k + 1], e).pollMinTx == At(run[k + 1], e).cfgMinTx
  {
    assert Step(run[k], events[k], run[k + 1]);
  }

  /** It ends only with a message of the peer: one that answers it, or one that polls. */
  lemma PollEnds(run: seq<World>, events: seq<Event>, k: nat, e: End)
    requires IsRun(run, events) && k < |events| && At(run[k], e).poll && !At(run[k + 1], e).poll
    ensures HearsAt(run, events, k, e) && (Heard(run, events, k, e).final || Heard(run, events, k, e).poll)
  {
    assert Step(run[k], events[k], run[k + 1]);
  }

  /** A peer's poll is answered: what is owed stays owed until a message with Final and without Poll is sent. */
  lemma FinalIsSent(run: seq<World>, events: seq<Event>, k: nat, e: End)
    requires IsRun(run, events) && k < |events|
    ensures HearsAt(run, events, k, e) && Heard(run, events, k, e).poll ==> At(run[k + 1], e).final
    ensures At(run[k], e).final && !At(run[k + 1], e).final ==>
              SendsAt(run, events, k, e, MessageOf(At(run[k], e))) && MessageOf(At(run[k], e)).final && !MessageOf(At(run[k], e)).poll
  {
    hide SessionOk;
    assert Step(run[k], events[k], run[k + 1]);
    RunOk(run, events, k);
    NotBoth(At(run[k], e));
  }

  lemma NotBoth(s: Session)
    requires SessionOk(s)
    ensures !(s.poll && s.final)
  {
  }

  /**
   While a session stays Up it slows its sending down, or expects its peer to be faster,
   only when the peer has answered a poll, and then to what the poll asked for.
   */
  lemma RatesNegotiated(run: seq<World>, events: seq<Event>, k: nat, e: End)
    requires IsRun(run, events) && k < |events| && At(run[k], e).state == Up == At(run[k + 1], e).state
    requires At(run[k + 1], e).minTx > At(run[k], e).minTx || At(run[k + 1], e).minRx < At(run[k], e).minRx
    ensures HearsAt(run, events, k, e) && Heard(run, events, k, e).final && At(run[k], e).poll
    ensures At(run[k + 1], e).minTx == At(run[k], e).pollMinTx && At(run[k + 1], e).minRx == At(run[k], e).pollMinRx
  {
    assert Step(run[k], events[k], run[k + 1]);
  }

  // ----- how sessions come up and go down

  /** The multiplier and the discriminators stay, and only the peer's is ever learned. */
  ghost predicate Acquainted(w: World, w0: World, e: End) {
    && At(w, e).disc == At(w0, e).disc && At(w, e).mult == 3
    && (At(w, e).rmtDisc == 0 || At(w, e).rmtDisc == At(w0, Peer(e)).disc)
    && forall m :: m in SentBy(w, e) ==> m.myDisc == At(w0, e).disc
  }

  lemma {:induction false} StayAcquainted(run: seq<World>, events: seq<Event>, k: nat)
    requires IsRun(run, events) && k < |run|
    ensures forall e :: Acquainted(run[k], run[0], e)
  {
    hide Start, Acquainted, Step;
    if k == 0 {
      FirstMeeting(run[0]);
    } else {
      StayAcquainted(run, events, k - 1);
      assert Step(run[k - 1], events[k - 1], run[k - 1 + 1]);
      forall e ensures Acquainted(run[k], run[0], e) { AcquaintedStep(run[k - 1], events[k - 1], run[k], run[0], e); }
    }
  }

  lemma FirstMeeting(w: World)
    requires Start(w)
    ensures forall e :: Acquainted(w, w, e)
  {
  }

  lemma AcquaintedStep(w: World, ev: Event, w': World, w0: World, e: End)
    requires Step(w, ev, w') && Acquainted(w, w0, e) && Acquainted(w, w0, Peer(e))
    ensures Acquainted(w', w0, e)
  {
    hide Transition;
  }

  /** Event 'k' brings end 'e' what its peer sent at 'j'. */
  predicate Brings(run: seq<World>, events: seq<Event>, j: nat, k: nat, e: End)
    requires IsRun(run, events)
  {
    j < k < |events| && events[j].Send? && events[j].e == Peer(e) && events[k].Deliver? && events[k].e == e
    && events[k].p == Packet(255, Some(MessageOf(At(run[j], Peer(e)))))
  }

  /** What is brought is accepted, if the sender is Down or knows the receiver. */
  lemma BroughtIsHeard(run: seq<World>, events: seq<Event>, j: nat, k: nat, e: End)
    requires IsRun(run, events) && Brings(run, events, j, k, e)
    requires At(run[j], Peer(e)).state == Down || At(run[j], Peer(e)).rmtDisc == At(run[0], e).disc
    ensures HearsAt(run, events, k, e) && Heard(run, events, k, e).state == At(run[j], Peer(e)).state
  {
    hide Processed;
    assert Step(run[k], events[k], run[k + 1]);
    StayAcquainted(run, events, j);
    StayAcquainted(run, events, k);
    assert Acquainted(run[j], run[0], Peer(e)) && Acquainted(run[k], run[0], e);
  }

  /** What an accepted message does to the state (section 6.8.6 of RFC 5880), case by case. */
  lemma HearingMoves(run: seq<World>, events: seq<Event>, k: nat, e: End)
    requires IsRun(run, events) && HearsAt(run, events, k, e)
    ensures var s, m, s' := At(run[k], e), Heard(run, events, k, e), At(run[k + 1], e);
            && (s.state == Down && m.state == Down ==> s'.state == Init && s'.rmtDisc == m.myDisc)
            && (s.state == Down && m.state == Init ==> s'.state == Up && s'.rmtDisc == m.myDisc)
            && (s.state == Init && Above(m.state) ==> s'.state == Up && s'.rmtDisc == m.myDisc)
            && (s.state == Up && Above(m.state) ==> s'.state == Up && s'.rmtDisc == m.myDisc)
            && (s.state == Up && m.state == Down ==> s'.state == Down)
            && (m.state == AdminDown ==> s'.state == Down)
  {
    hide Start;
    assert Step(run[k], events[k], run[k + 1]);
    RunOk(run, events, k);
  }

  /** Every change of state has its reason. */
  lemma StateChanges(run: seq<World>, events: seq<Event>, k: nat, e: End)
    requires IsRun(run, events) && k < |events| && At(run[k + 1], e).state != At(run[k], e).state
    ensures var from, to := At(run[k], e).state, At(run[k + 1], e).state;
            if events[k].Tick? then events[k].e == e && to == Down && events[k].now >= At(run[k], e).detectTime
            else
              && HearsAt(run, events, k, e)
              && var m := Heard(run, events, k, e);
                 match to
                 case Init => from == Down && m.state == Down
                 case Up => m.state == Init || (m.state == Up && from == Init)
                 case Down => m.state == AdminDown || (m.state == Down && from == Up)
                 case AdminDown => false
  {
    hide Start;
    assert Step(run[k], events[k], run[k + 1]);
    RunOk(run, events, k);
  }

  lemma SendKeeps(run: seq<World>, events: seq<Event>, k: nat, e: End)
    requires IsRun(run, events) && k < |events| && (events[k].Send? || events[k].e != e)
    ensures At(run[k + 1], e).state == At(run[k], e).state && At(run[k + 1], e).rmtDisc == At(run[k], e).rmtDisc
  {
    hide Start, Processed, Ran, Configured;
    assert Step(run[k], events[k], run[k + 1]);
  }

  /** The events from 'k' on are three messages, each sent and brought at once: from 'e', to it, and from it. */
  predicate ThreeMessages(run: seq<World>, events: seq<Event>, k: nat, e: End)
    requires IsRun(run, events)
  {
    Brings(run, events, k, k + 1, Peer(e)) && Brings(run, events, k + 2, k + 3, e) && Brings(run, events, k + 4, k + 5, Peer(e))
  }

  /**
   The handshake completes: whenever both sessions are Down, in any run, three messages
   that arrive bring both of them Up.
   */
  lemma HandshakeCompletes(run: seq<World>, events: seq<Event>, k: nat, e: End)
    requires IsRun(run, events) && ThreeMessages(run, events, k, e)
    requires At(run[k], e).state == Down && At(run[k], Peer(e)).state == Down
    ensures At(run[k + 6], e).state == Up && At(run[k + 6], Peer(e)).state == Up
  {
    hide IsRun, MessageOf, HearsAt, At, Heard;
    var f := Peer(e);
    assert Peer(f) == e;
    Delivered(run, events, k, f);
    SendKeeps(run, events, k + 1, e);
    Delivered(run, events, k + 2, e);
    SendKeeps(run, events, k + 3, f);
    Delivered(run, events, k + 4, f);
    SendKeeps(run, events, k + 5, e);
  }

  /** One message that is brought at once. */
  lemma Delivered(run: seq<World>, events: seq<Event>, k: nat, e: End)
    requires IsRun(run, events) && Brings(run, events, k, k + 1, e)
    requires At(run[k], Peer(e)).state == Down || At(run[k], Peer(e)).rmtDisc == At(run[0], e).disc
    ensures var s, p, s' := At(run[k], e), At(run[k], Peer(e)), At(run[k + 2], e);
            && At(run[k + 1], Peer(e)).state == p.state && At(run[k + 1], Peer(e)).rmtDisc == p.rmtDisc
            && (s.state == Down && p.state == Down ==> s'.state == Init && s'.rmtDisc == At(run[0], Peer(e)).disc)
            && (s.state == Down && p.state == Init ==> s'.state == Up && s'.rmtDisc == At(run[0], Peer(e)).disc)
            && (s.state == Init && Above(p.state) ==> s'.state == Up && s'.rmtDisc == At(run[0], Peer(e)).disc)
  {
    hide IsRun, MessageOf, At, Heard, HearsAt;
    SendKeeps(run, events, k, e);
    SendKeeps(run, events, k, Peer(e));
    BroughtIsHeard(run, events, k, k + 1, e);
    HearingMoves(run, events, k + 1, e);
    SenderIs(run, events, k + 1, e);
  }

  lemma SenderIs(run: seq<World>, events: seq<Event>, k: nat, e: End)
    requires IsRun(run, events) && HearsAt(run, events, k, e)
    ensures Heard(run, events, k, e).myDisc == At(run[0], Peer(e)).disc
  {
    StayAcquainted(run, events, k);
    assert Acquainted(run[k], run[0], Peer(e));
  }

  // ----- what the peer learns

  /** The intervals that a session asks for: those of its poll, if it has one under way. */
  function AskedTx(s: Session): int {
    if s.poll then s.pollMinTx else if s.state == Up then s.minTx else Max(s.minTx, 1000)
  }

  function AskedRx(s: Session): int {
    if s.poll then s.pollMinRx else s.minRx
  }

  /** An interval in milliseconds that 32 bits of microseconds can hold. */
  predicate Sendable(x: int) {
    1 <= x <= 4294967
  }

  lemma SentMicroseconds(x: int)
    requires Sendable(x)
    ensures Max(U32(x * 1000) / 1000, 1) == x
  {
    assert x * 1000 < 0x1_0000_0000;
  }

  /** A delivered message tells its receiver the sender's own intervals, each as what it is. */
  lemma IntervalsLearned(run: seq<World>, events: seq<Event>, j: nat, k: nat, e: End)
    requires IsRun(run, events) && Brings(run, events, j, k, e) && HearsAt(run, events, k, e)
    requires !(At(run[k], e).state != Down && At(run[k + 1], e).state == Down)
    ensures var s, s' := At(run[j], Peer(e)), At(run[k + 1], e);
            && (Sendable(AskedTx(s)) ==> s'.rmtMinTx == AskedTx(s))
            && (Sendable(AskedRx(s)) ==> s'.rmtMinRx == AskedRx(s))
            && s'.rmtState == s.state && s'.rmtDiag == s.diag && s'.rmtDisc == s.disc
  {
    hide Start, U32, Max;
    assert Step(run[k], events[k], run[k + 1]);
    var s := At(run[j], Peer(e));
    if Sendable(AskedTx(s)) { SentMicroseconds(AskedTx(s)); }
    if Sendable(AskedRx(s)) { SentMicroseconds(AskedRx(s)); }
  }

  // ----- packets, intervals and times of one session

  /**
   Section 6.8.6 of RFC 5880 lets a session drop a packet for exactly these reasons: it
   came from another network, is too short or of another version, is authenticated or
   multipoint, has a zero multiplier or no sender, is for another session, or claims a
   session that the receiver has not answered.
   */
  lemma RefusedExactly(disc: nat, p: Packet)
    ensures !Accepts(disc, p) <==>
              || p.ttl < 255 || p.ttl > 255 || p.msg == None
              || (var m := p.msg.value;
                  || m.version != 1 || m.length < 24 || m.auth || m.multipoint || m.mult == 0 || m.myDisc == 0
                  || (m.yourDisc != 0 && m.yourDisc != disc)
                  || (m.yourDisc == 0 && m.state in {Init, Up}))
  {
  }

  /** A refused packet changes nothing but the count of received control packets. */
  lemma RefusedIsIgnored(run: seq<World>, events: seq<Event>, k: nat, e: End)
    requires IsRun(run, events) && k < |events| && events[k].Deliver? && events[k].e == e && !HearsAt(run, events, k, e)
    ensures At(run[k + 1], e) == At(run[k], e).(decayRxCtl := At(run[k], e).decayRxCtl + 1)
  {
    hide ProcessedMsg;
    assert Step(run[k], events[k], run[k + 1]);
  }

  /** Section 6.8.3 of RFC 5880: a session that is not Up sends at most one packet in three quarters of a second. */
  lemma SlowUnlessUp(run: seq<World>, events: seq<Event>, k: nat, e: End)
    requires IsRun(run, events) && k < |events| && events[k].Send? && events[k].e == e && At(run[k], e).state != Up
    ensures At(run[k + 1], e).nextTx >= events[k].now + 750
  {
    assert Step(run[k], events[k], run[k + 1]);
  }

  /** The next packet is due between three quarters of an interval and one: the longer of the session's own and what its peer can take. */
  lemma SendTimes(run: seq<World>, events: seq<Event>, k: nat, e: End)
    requires IsRun(run, events) && k < |events| && events[k].Send? && events[k].e == e && At(run[k], e).rmtMinRx >= 0
    ensures var s, wait := At(run[k], e), At(run[k + 1], e).nextTx - events[k].now;
            var own := if s.state == Up then s.minTx else if s.minTx > 1000 then s.minTx else 1000;
            && 4 * wait >= 3 * own && 4 * wait >= 3 * s.rmtMinRx && (wait <= own || wait <= s.rmtMinRx)
  {
    assert Step(run[k], events[k], run[k + 1]);
  }

  /**
   The detection time: what is heard keeps a session up until three intervals have passed,
   each the longer of what the session expects and what its peer promises, and no longer.
   */
  lemma ExpiryExact(run: seq<World>, events: seq<Event>, j: nat, k: nat, l: nat, e: End)
    requires IsRun(run, events) && Brings(run, events, j, k, e) && HearsAt(run, events, k, e) && k < l < |events|
    requires events[l].Tick? && events[l].e == e && Above(At(run[l], e).state) && Above(At(run[k + 1], e).state)
    requires forall i :: k < i < l ==> !HearsAt(run, events, i, e)
    requires Sendable(AskedTx(At(run[j], Peer(e))))
    ensures At(run[l + 1], e).state == Down <==>
              events[l].now >= events[k].now + 3 * Max(At(run[k + 1], e).minRx, AskedTx(At(run[j], Peer(e))))
  {
    hide Start, MessageOf, Transition, SessionOk, HearsAt, Brings, AskedTx, Acquainted;
    IntervalsLearned(run, events, j, k, e);
    DetectTimeFixed(run, events, k + 1, l, e);
    HeardDetectTime(run, events, k, e);
    assert Step(run[l], events[l], run[l + 1]);
  }

  lemma HeardDetectTime(run: seq<World>, events: seq<Event>, k: nat, e: End)
    requires IsRun(run, events) && HearsAt(run, events, k, e) && Above(At(run[k + 1], e).state)
    ensures At(run[k + 1], e).detectTime == events[k].now + 3 * Max(At(run[k + 1], e).minRx, At(run[k + 1], e).rmtMinTx)
  {
    hide Start, Max;
    StayAcquainted(run, events, k);
    assert Acquainted(run[k], run[0], e);
    assert Step(run[k], events[k], run[k + 1]);
  }

  /**
   Decay: at a check that is due, the session expects fewer packets if and only if hardly
   more than its peer's control packets have come in since the last one; and the next check
   counts afresh.
   */
  lemma DecayExact(run: seq<World>, events: seq<Event>, k: nat, e: End)
    requires IsRun(run, events) && k < |events| && events[k].Tick? && events[k].e == e
    requires var s := At(run[k], e); At(run[k + 1], e).state == Up && 0 < s.decayMinRx && s.decayDetectTime <= events[k].now
    ensures var s, s', got := At(run[k], e), At(run[k + 1], e), events[k].rxPackets - At(run[k], e).decayRxPackets;
            && (got <= s.decayRxCtl ==> s'.inDecay) && (got > 2 && got > 2 * s.decayRxCtl ==> !s'.inDecay)
            && (s'.inDecay <==> got <= 2 || got <= 2 * s.decayRxCtl)
            && s'.decayRxCtl == 0 && s'.decayRxPackets == events[k].rxPackets
            && s'.decayDetectTime >= events[k].now + 2000 && s'.decayDetectTime >= events[k].now + s.decayMinRx
            && (s'.decayDetectTime == events[k].now + 2000 || s'.decayDetectTime == events[k].now + s.decayMinRx)
  {
    assert Step(run[k], events[k], run[k + 1]);
  }

  /**
   A new interval is negotiated at once: a session above Down that is not busy polls for
   it, and sends the poll now.  What burdens nobody is in force at once: any interval while
   the session is not Up, faster sending and slower expectation outside a poll.
   */
  lemma ReconfigurePolls(run: seq<World>, events: seq<Event>, k: nat, e: End)
    requires IsRun(run, events) && k < |events| && events[k].Reconfigure? && events[k].e == e
    ensures var s, s', c := At(run[k], e), At(run[k + 1], e), events[k].c;
            && s'.cfgMinTx >= 100 && s'.cfgMinRx >= 100 && (c.minTx >= 100 ==> s'.cfgMinTx == c.minTx) && (c.minRx >= 100 ==> s'.cfgMinRx == c.minRx)
            && (Above(s.state) && !s.poll && !s.final && (s'.cfgMinTx != s.cfgMinTx || s'.cfgMinRx != s.cfgMinRx) ==>
                  s'.poll && s'.nextTx == 0 && AskedTx(s') == s'.cfgMinTx && AskedRx(s') == if s'.inDecay then s'.decayMinRx else s'.cfgMinRx)
            && (s'.cfgMinTx != s.cfgMinTx && (s.state != Up || (!s.poll && s'.cfgMinTx < s.minTx)) ==> s'.minTx == s'.cfgMinTx)
            && (s'.cfgMinRx != s.cfgMinRx && (s.state != Up || (!s.poll && s'.cfgMinRx > s.minRx)) ==> s'.minRx == s'.cfgMinRx)
            && s'.state == s.state
  {
    assert Step(run[k], events[k], run[k + 1]);
    RunOk(run, events, k);
  }
}
