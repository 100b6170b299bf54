/** A BFD session of `lib/bfd.c`: RFC 5880 with OVS's decay of the receive interval. */
module Bfd {
  const BFD_VERSION: nat := 1
  const BFD_PACKET_LEN: nat := 24

  datatype Option<+T> = None | Some(value: T)

  datatype State = AdminDown | Down | Init | Up

  predicate Above(s: State) {
    s == Init || s == Up
  }

  datatype Diag = NoDiag | Expired | RemoteDown | CpathDown | Other(code: nat)

  /** A BFD control message; times in microseconds. */
  datatype Msg = Msg(version: nat, diag: Diag, state: State, poll: bool, final: bool, auth: bool, multipoint: bool,
                     mult: nat, length: nat, myDisc: nat, yourDisc: nat, minTx: nat, minRx: nat)

  /** What arrives: a time to live, and a message unless it is too short. */
  datatype Packet = Packet(ttl: nat, msg: Option<Msg>)

  /** The checks of section 6.8.6 of RFC 5880, up to the first field that is stored. */
  predicate Accepts(disc: nat, p: Packet) {
    && p.ttl == 255 && p.msg.Some?
    && var m := p.msg.value;
       && m.version == BFD_VERSION && !m.auth && m.length >= BFD_PACKET_LEN && m.mult != 0 && !m.multipoint && m.myDisc != 0
       && (if m.yourDisc != 0 then m.yourDisc == disc else !Above(m.state))
  }

  /** The state machine of section 6.8.6 of RFC 5880. */
  function Transition(local: State, remote: State): State {
    match (local, remote)
    case (AdminDown, _) => AdminDown
    case (_, AdminDown) => Down
    case (Down, Down) => Init
    case (Down, Init) => Up
    case (Down, Up) => Down
    case (Init, Down) => Init
    case (Init, _) => Up
    case (Up, Down) => Down
    case (Up, _) => Up
  }

  /** The fields of `struct bfd` that the protocol uses; times in milliseconds. */
  datatype Session = Session(
    disc: nat, cpathDown: bool, mult: nat,
    state: State, diag: Diag, poll: bool, final: bool,
    rmtState: State, rmtDiag: Diag, rmtDisc: nat, rmtMinRx: int, rmtMinTx: int,
    cfgMinTx: int, cfgMinRx: int, pollMinTx: int, pollMinRx: int, minTx: int, minRx: int,
    lastTx: int, nextTx: int, detectTime: int,
    inDecay: bool, decayMinRx: int, decayRxCtl: nat, decayRxPackets: nat, decayDetectTime: int)

  /** What holds of a session between calls. */
  predicate SessionOk(s: Session) {
    && !(s.poll && s.final)
    && s.state != AdminDown
    && (Above(s.state) ==> s.rmtDisc != 0)
    && (s.decayMinRx > 0 ==> s.decayMinRx >= s.cfgMinRx)
    && (s.inDecay ==> s.state == Up && s.decayMinRx >= s.cfgMinRx)
  }

  function Max(a: int, b: int): int {
    if a >= b then a else b
  }

  function RxInterval(s: Session): int {
    Max(s.minRx, s.rmtMinTx)
  }

  /** Everything learned from the remote end is forgotten. */
  predicate RemoteForgotten(s: Session) {
    s.rmtState == Down && s.rmtDiag == NoDiag && s.rmtMinRx == 1 && s.rmtDisc == 0 && s.rmtMinTx == 0
  }

  predicate SameConfig(s: Session, s': Session) {
    && s'.disc == s.disc && s'.mult == s.mult && s'.cpathDown == s.cpathDown
    && s'.cfgMinTx == s.cfgMinTx && s'.cfgMinRx == s.cfgMinRx && s'.decayMinRx == s.decayMinRx
  }

  /** What the session knows of the remote end, and of its own decay, stays. */
  predicate RemoteKept(s: Session, s': Session) {
    && s'.rmtState == s.rmtState && s'.rmtDiag == s.rmtDiag && s'.rmtDisc == s.rmtDisc && s'.rmtMinRx == s.rmtMinRx && s'.rmtMinTx == s.rmtMinTx
    && s'.inDecay == s.inDecay && s'.minRx == s.minRx
  }

  /** The decay counters start afresh, and the next check is at least two seconds away. */
  predicate DecayRestarts(s: Session, now: int, rxPackets: nat) {
    s.decayRxCtl == 0 && s.decayRxPackets == rxPackets && s.decayDetectTime == now + Max(s.decayMinRx, 2000)
  }

  predicate DecayKept(s: Session, s': Session) {
    s'.decayRxCtl == s.decayRxCtl && s'.decayRxPackets == s.decayRxPackets && s'.decayDetectTime == s.decayDetectTime
  }

  /** A new state: a session that goes down, or is down for another reason, forgets its peer and its decay. */
  predicate StateSet(s: Session, to: State, why: Diag, now: int, rxPackets: nat, s': Session) {
    var changed := s.state != to || s.diag != s'.diag;
    && SameConfig(s, s') && s'.state == to && s'.final == s.final && s'.poll == s.poll
    && s'.diag == (if s.cpathDown then CpathDown else why)
    && s'.pollMinTx == s.pollMinTx && s'.pollMinRx == s.pollMinRx
    && s'.minTx == s.minTx && s'.detectTime == s.detectTime && s'.nextTx == s.nextTx && s'.lastTx == s.lastTx
    && (if changed && to == Down then RemoteForgotten(s') && !s'.inDecay && s'.minRx == (if s.inDecay then s.cfgMinRx else s.minRx)
        else RemoteKept(s, s'))
    && (if changed && to == Up && s.decayMinRx != 0 then DecayRestarts(s', now, rxPackets) else DecayKept(s, s'))
  }

  /** A time of sending that is three quarters of the interval to one interval after the last one. */
  predicate Spaced(lastTx: int, nextTx: int, interval: int) {
    interval >= 0 ==> 3 * interval <= 4 * (nextTx - lastTx) <= 4 * interval
  }

  /** What is stored of an accepted message before the state machine runs. */
  predicate Learned(s: Session, m: Msg, now: int, s': Session) {
    var polled := s.poll && m.final;
    && s' == s.(rmtDisc := m.myDisc, rmtState := m.state, rmtDiag := m.diag,
                rmtMinRx := Max(m.minRx / 1000, 1), rmtMinTx := Max(m.minTx / 1000, 1),
                final := s.final || m.poll, poll := s.poll && !m.final && !m.poll,
                minTx := if polled then s.pollMinTx else s.minTx, minRx := if polled then s.pollMinRx else s.minRx,
                nextTx := s'.nextTx, detectTime := s'.detectTime)
    && s'.detectTime == now + RxInterval(s') * s.mult
    && (if s.nextTx == 0 || s.rmtMinRx == s'.rmtMinRx then s'.nextTx == s.nextTx else Spaced(s.lastTx, s'.nextTx, TxInterval(s')))
  }

  /** What an accepted or refused packet does (sections 6.5, 6.8.4 and 6.8.6 of RFC 5880). */
  predicate Processed(s: Session, p: Packet, now: int, rxPackets: nat, s': Session) {
    SameConfig(s, s') && if !Accepts(s.disc, p) then s' == s.(decayRxCtl := s.decayRxCtl + 1) else ProcessedMsg(s, p.msg.value, now, rxPackets, s')
  }

  predicate ProcessedMsg(s: Session, m: Msg, now: int, rxPackets: nat, s': Session) {
    var polled := s.poll && m.final;
    var minRx := if polled then s.pollMinRx else s.minRx;
    && s'.state == Transition(s.state, m.state)
    && s'.diag == (if s'.state == s.state then s.diag else if s.cpathDown then CpathDown else if s'.state == Down then RemoteDown else s.diag)
    && (if s'.state == Down && s.state != Down then RemoteForgotten(s')
        else s'.rmtDisc == m.myDisc && s'.rmtState == m.state && s'.rmtDiag == m.diag && s'.rmtMinRx == Max(m.minRx / 1000, 1) && s'.rmtMinTx == Max(m.minTx / 1000, 1))
    && s'.final == (s.final || m.poll) && s'.poll == (s.poll && !m.final && !m.poll)
    && s'.minTx == (if polled then s.pollMinTx else s.minTx)
    && s'.inDecay == (s.inDecay && s'.state != Down)
    && s'.minRx == (if s.inDecay && s'.state == Down then s.cfgMinRx else minRx)
    && s'.detectTime == now + Max(minRx, Max(m.minTx / 1000, 1)) * s.mult
    && (if s'.state == Up && s.state != Up && s.decayMinRx != 0 then DecayRestarts(s', now, rxPackets)
        else DecayKept(s.(decayRxCtl := s.decayRxCtl + 1), s'))
    && s'.lastTx == s.lastTx
    && (if s.nextTx == 0 || s.rmtMinRx == Max(m.minRx / 1000, 1) then s'.nextTx == s.nextTx
        else Spaced(s.lastTx, s'.nextTx, Max(if s.state == Up then s'.minTx else Max(s'.minTx, 1000), Max(m.minRx / 1000, 1))))
  }

  /** The receive interval decays while hardly more than control messages arrive. */
  predicate Decays(s: Session, rxPackets: nat) {
    rxPackets - s.decayRxPackets <= 2 * Max(s.decayRxCtl, 1)
  }

  /** What the periodic run does: the session expires, and intervals are renegotiated by polling. */
  predicate Ran(s: Session, now: int, rxPackets: nat, s': Session) {
    && SameConfig(s, s') && s'.detectTime == s.detectTime && s'.final == s.final && s'.minTx == s.minTx
    && (if Above(s.state) && now >= s.detectTime
        then s'.state == Down && RemoteForgotten(s') && s'.diag == (if s.cpathDown then CpathDown else Expired)
        else s'.state == s.state && s'.rmtDisc == s.rmtDisc && s'.rmtState == s.rmtState && s'.minRx == s.minRx && s'.diag == s.diag)
    && s'.inDecay == (s'.state == Up && if s.decayMinRx > 0 && now >= s.decayDetectTime then Decays(s, rxPackets) else s.inDecay)
    && (if s'.state == Up && s.decayMinRx > 0 && now >= s.decayDetectTime then DecayRestarts(s', now, rxPackets) else DecayKept(s, s'))
    && PolledIf(s, s', s'.minTx != s.cfgMinTx || (s'.minRx != s.cfgMinRx && s'.minRx != s.decayMinRx) || s'.inDecay != s.inDecay)
  }

  /** A poll sequence starts if one is needed, the session is above Down and no other exchange is under way. */
  predicate PolledIf(s: Session, s': Session, needed: bool) {
    if needed && Above(s'.state) && !s.poll && !s.final
    then
      && s'.poll && s'.nextTx == 0
      && s'.pollMinTx == s'.cfgMinTx && s'.pollMinRx == (if s'.inDecay then s'.decayMinRx else s'.cfgMinRx)
    else s'.poll == s.poll && s'.nextTx == s.nextTx && s'.pollMinTx == s.pollMinTx && s'.pollMinRx == s.pollMinRx
  }

  function MinTx(s: Session): int {
    if s.state == Up then s.minTx else Max(s.minTx, 1000)
  }

  function TxInterval(s: Session): int {
    Max(MinTx(s), s.rmtMinRx)
  }

  function U32(x: int): nat {
    x % 0x1_0000_0000
  }

  /** The message that a session sends. */
  function MessageOf(s: Session): Msg {
    Msg(BFD_VERSION, s.diag, s.state, s.poll, s.final, false, false, s.mult, BFD_PACKET_LEN, s.disc, s.rmtDisc,
        U32((if s.poll then s.pollMinTx else MinTx(s)) * 1000), U32((if s.poll then s.pollMinRx else s.minRx) * 1000))
  }

  /** The next packet follows after three quarters of the interval at least (section 6.8.7 of RFC 5880). */
  predicate Sent(s: Session, now: int, s': Session) {
    && s' == s.(final := false, lastTx := now, nextTx := s'.nextTx)
    && Spaced(now, s'.nextTx, TxInterval(s))
  }

  /** The intervals and the decay that the database asks for. */
  datatype Config = Config(minTx: int, minRx: int, decayMinRx: int, cpathDown: bool)

  /** The interval in use follows the configured one unless a poll has to negotiate it first. */
  function InUse(s: Session, was: int, cfg: int, inUse: int, atOnce: bool): int {
    if cfg != was && (s.state != Up || (!s.poll && atOnce)) then cfg else inUse
  }

  predicate Configured(s: Session, c: Config, s': Session) {
    ConfiguredFields(s, c, s') && PolledIf(s, s', ConfigChanged(s, c, s'))
  }

  predicate ConfigChanged(s: Session, c: Config, s': Session) {
    s'.cfgMinTx != s.cfgMinTx || s'.cfgMinRx != s.cfgMinRx || s.decayMinRx != c.decayMinRx || s'.cpathDown != s.cpathDown
  }

  predicate ConfiguredFields(s: Session, c: Config, s': Session) {
    && s'.disc == s.disc && s'.mult == s.mult && s'.state == s.state && s'.final == s.final && s'.detectTime == s.detectTime
    && s'.cfgMinTx == Max(c.minTx, 100) && s'.cfgMinRx == Max(c.minRx, 100) && s'.cpathDown == c.cpathDown
    && s'.minTx == InUse(s, s.cfgMinTx, s'.cfgMinTx, s.minTx, s'.cfgMinTx < s.minTx)
    && s'.minRx == InUse(s, s.cfgMinRx, s'.cfgMinRx, s.minRx, s'.cfgMinRx > s.minRx)
    && s'.decayMinRx == (if 0 < c.decayMinRx < s'.cfgMinRx then 0 else c.decayMinRx)
    && s'.diag == (if c.cpathDown == s.cpathDown then s.diag else if c.cpathDown then CpathDown else NoDiag)
    && (if s.state == Down && s'.diag != s.diag then RemoteForgotten(s')
        else s'.rmtState == s.rmtState && s'.rmtDiag == s.rmtDiag && s'.rmtDisc == s.rmtDisc && s'.rmtMinRx == s.rmtMinRx && s'.rmtMinTx == s.rmtMinTx)
    && s'.inDecay == (s.inDecay && s'.cfgMinRx == s.cfgMinRx && s.decayMinRx == c.decayMinRx)
  }

  lemma JitterBound(interval: int, jitter: nat)
    requires interval >= 0 && jitter < 26
    ensures 0 <= 4 * (interval * jitter / 100) <= interval
  {
    assert interval * jitter <= interval * 25;
  }

  /** `struct bfd`, as one record that the methods update field by field. */
  class BfdSession {
    var s: Session

    predicate Valid()
      reads this
    {
      SessionOk(s)
    }

    /** The creation half of `bfd_configure`. */
    constructor (disc: nat)
      requires disc != 0
      ensures Valid() && s.disc == disc && s.mult == 3 && s.state == Down && RemoteForgotten(s) && !s.poll && !s.final && !s.inDecay && s.minTx == 1000
    {
      s := Session(disc, false, 3, Down, NoDiag, false, false, Down, NoDiag, 0, 1, 0, 0, 0, 0, 0, 1000, 0, 0, 0, 0, false, 0, 0, 0, 0);
    }

    /** `bfd_decay_update`. */
    method DecayUpdate(now: int, rxPackets: nat)
      modifies this
      ensures s == old(s).(decayRxPackets := rxPackets, decayRxCtl := 0, decayDetectTime := Max(s.decayMinRx, 2000) + now)
    {
      s := s.(decayRxPackets := rxPackets, decayRxCtl := 0, decayDetectTime := Max(s.decayMinRx, 2000) + now);
    }

    /** `bfd_set_state`. */
    method SetState(to: State, why: Diag, now: int, rxPackets: nat)
      requires to != AdminDown
      modifies this
      ensures StateSet(old(s), to, why, now, rxPackets, s)
    {
      var reason := if s.cpathDown then CpathDown else why;
      if s.state != to || s.diag != reason {
        s := s.(state := to, diag := reason);
        if s.state == Down {
          s := s.(rmtState := Down, rmtDiag := NoDiag, rmtMinRx := 1, rmtDisc := 0, rmtMinTx := 0);
          if s.inDecay {
            s := s.(minRx := s.cfgMinRx, inDecay := false);
          }
        }
        if s.state == Up && s.decayMinRx != 0 {
          DecayUpdate(now, rxPackets);
        }
      }
    }

    /** `bfd_poll`. */
    method Poll()
      modifies this
      ensures s == if Above(old(s).state) && !old(s).poll && !old(s).final
                   then old(s).(pollMinTx := s.cfgMinTx, pollMinRx := if s.inDecay then s.decayMinRx else s.cfgMinRx, poll := true, nextTx := 0)
                   else old(s)
    {
      if (s.state == Init || s.state == Up) && !s.poll && !s.final {
        s := s.(pollMinTx := s.cfgMinTx, pollMinRx := if s.inDecay then s.decayMinRx else s.cfgMinRx);
        s := s.(poll := true, nextTx := 0);
      }
    }

    /** `bfd_run`. */
    method RunSession(now: int, rxPackets: nat)
      requires Valid()
      modifies this
      ensures Valid() && Ran(old(s), now, rxPackets, s)
      ensures Above(s.state) ==> s.detectTime > now
    {
      var wasInDecay := s.inDecay;
      if (s.state == Init || s.state == Up) && now >= s.detectTime {
        SetState(Down, Expired, now, rxPackets);
      }
      if s.state == Up && s.decayMinRx > 0 && now >= s.decayDetectTime {
        s := s.(inDecay := rxPackets - s.decayRxPackets <= 2 * Max(s.decayRxCtl, 1));
        DecayUpdate(now, rxPackets);
      }
      if s.minTx != s.cfgMinTx || (s.minRx != s.cfgMinRx && s.minRx != s.decayMinRx) || s.inDecay != wasInDecay {
        Poll();
      }
    }

    /** `bfd_set_next_tx`: up to a quarter earlier than the interval. */
    method SetNextTx(jitter: nat)
      requires jitter < 26
      modifies this
      ensures s == old(s).(nextTx := s.nextTx)
      ensures Spaced(s.lastTx, s.nextTx, TxInterval(s))
    {
      var interval := TxInterval(s);
      if interval >= 0 { JitterBound(interval, jitter); }
      s := s.(nextTx := s.lastTx + interval - (if interval >= 0 then interval * jitter / 100 else -(-interval * jitter / 100)));
    }

    /** `bfd_put_packet`: its assertion about Poll and Final cannot fail. */
    method PutPacket(now: int, jitter: nat) returns (m: Msg)
      requires Valid() && jitter < 26
      modifies this
      ensures Valid() && m == MessageOf(old(s)) && !(m.poll && m.final) && Sent(old(s), now, s)
    {
      assert !s.poll || !s.final;
      var tx, rx := if s.poll then s.pollMinTx else MinTx(s), if s.poll then s.pollMinRx else s.minRx;
      m := Msg(BFD_VERSION, s.diag, s.state, s.poll, s.final, false, false, s.mult, BFD_PACKET_LEN, s.disc, s.rmtDisc,
               U32(tx * 1000), U32(rx * 1000));
      s := s.(final := false);
      s := s.(lastTx := now);
      SetNextTx(jitter);
    }

    /** The Poll and Final bits of a message (section 6.5 of RFC 5880). */
    method AnswerPoll(m: Msg)
      modifies this
      ensures var polled := old(s).poll && m.final;
              s == old(s).(final := old(s).final || m.poll, poll := old(s).poll && !m.final && !m.poll,
                           minTx := if polled then s.pollMinTx else old(s).minTx, minRx := if polled then s.pollMinRx else old(s).minRx)
    {
      if m.final && s.poll {
        s := s.(minTx := s.pollMinTx, minRx := s.pollMinRx, poll := false);
      }
      if m.poll {
        s := s.(poll := false, final := true);
      }
    }

    /** The first half of `bfd_process_packet`: what is stored of an accepted message. */
    method Learn(m: Msg, now: int, jitter: nat)
      requires jitter < 26
      modifies this
      ensures Learned(old(s), m, now, s)
    {
      hide Spaced, Max;
      s := s.(rmtDisc := m.myDisc, rmtState := m.state, rmtDiag := m.diag);
      AnswerPoll(m);
      LearnRates(m, now, jitter);
    }

    /** Its end: the intervals that the remote end asks for, and the time by which to hear from it again. */
    method LearnRates(m: Msg, now: int, jitter: nat)
      requires jitter < 26
      modifies this
      ensures s == old(s).(rmtMinRx := Max(m.minRx / 1000, 1), rmtMinTx := Max(m.minTx / 1000, 1), nextTx := s.nextTx, detectTime := now + RxInterval(s) * s.mult)
      ensures if old(s).nextTx == 0 || old(s).rmtMinRx == s.rmtMinRx then s.nextTx == old(s).nextTx else Spaced(s.lastTx, s.nextTx, TxInterval(s))
    {
      hide Spaced, Max;
      var remoteMinRx := Max(m.minRx / 1000, 1);
      if s.rmtMinRx != remoteMinRx {
        s := s.(rmtMinRx := remoteMinRx);
        if s.nextTx != 0 {
          SetNextTx(jitter);
        }
      }
      s := s.(rmtMinTx := Max(m.minTx / 1000, 1));
      s := s.(detectTime := RxInterval(s) * s.mult + now);
    }

    /** The checks at the head of `bfd_process_packet`. */
    method CheckPacket(p: Packet) returns (ok: bool)
      ensures ok <==> Accepts(s.disc, p)
    {
      if p.ttl != 255 || p.msg == None {
        return false;
      }
      var m := p.msg.value;
      if m.version != BFD_VERSION || m.auth || m.length < BFD_PACKET_LEN || m.mult == 0 || m.multipoint || m.myDisc == 0 {
        return false;
      }
      if m.yourDisc != 0 {
        ok := m.yourDisc == s.disc;
      } else {
        ok := m.state != Init && m.state != Up;
      }
    }

    /** `bfd_process_packet`. */
    method ProcessPacket(p: Packet, now: int, jitter: nat, rxPackets: nat)
      requires Valid() && jitter < 26
      modifies this
      ensures Valid() && Processed(old(s), p, now, rxPackets, s)
    {
      s := s.(decayRxCtl := s.decayRxCtl + 1);
      var ok := CheckPacket(p);
      if !ok {
        return;
      }
      var m := p.msg.value;
      Learn(m, now, jitter);
      if m.state == AdminDown {
        if s.state != Down {
          SetState(Down, RemoteDown, now, rxPackets);
        }
      } else if s.state == Down {
        if m.state == Down {
          SetState(Init, s.diag, now, rxPackets);
        } else if m.state == Init {
          SetState(Up, s.diag, now, rxPackets);
        }
      } else if s.state == Init {
        if m.state == Init || m.state == Up {
          SetState(Up, s.diag, now, rxPackets);
        }
      } else if m.state == Down {
        SetState(Down, RemoteDown, now, rxPackets);
      }
    }

    /** The transmit and receive intervals in `bfd_configure`. */
    method ConfigureRates(c: Config) returns (txChanged: bool, rxChanged: bool)
      modifies this
      ensures s == old(s).(cfgMinTx := Max(c.minTx, 100), cfgMinRx := Max(c.minRx, 100), minTx := s.minTx, minRx := s.minRx)
      ensures s.minTx == InUse(old(s), old(s).cfgMinTx, s.cfgMinTx, old(s).minTx, s.cfgMinTx < old(s).minTx)
      ensures s.minRx == InUse(old(s), old(s).cfgMinRx, s.cfgMinRx, old(s).minRx, s.cfgMinRx > old(s).minRx)
      ensures txChanged == (s.cfgMinTx != old(s).cfgMinTx) && rxChanged == (s.cfgMinRx != old(s).cfgMinRx)
    {
      var tx, rx := Max(c.minTx, 100), Max(c.minRx, 100);
      txChanged, rxChanged := s.cfgMinTx != tx, s.cfgMinRx != rx;
      if txChanged {
        s := s.(cfgMinTx := tx);
        if s.state != Up || (!s.poll && s.cfgMinTx < s.minTx) {
          s := s.(minTx := s.cfgMinTx);
        }
      }
      if rxChanged {
        s := s.(cfgMinRx := rx);
        if s.state != Up || (!s.poll && s.cfgMinRx > s.minRx) {
          s := s.(minRx := s.cfgMinRx);
        }
      }
    }

    /** The decay interval in `bfd_configure`: it must not be below the receive interval. */
    method ConfigureDecay(c: Config, rxChanged: bool, now: int, rxPackets: nat) returns (changed: bool)
      modifies this
      ensures changed == (old(s).decayMinRx != c.decayMinRx || rxChanged)
      ensures if changed
              then s == old(s).(decayMinRx := if 0 < c.decayMinRx < s.cfgMinRx then 0 else c.decayMinRx, inDecay := false,
                                decayRxPackets := s.decayRxPackets, decayRxCtl := s.decayRxCtl, decayDetectTime := s.decayDetectTime)
              else s == old(s)
    {
      changed := s.decayMinRx != c.decayMinRx || rxChanged;
      if changed {
        s := s.(decayMinRx := if c.decayMinRx > 0 && c.decayMinRx < s.cfgMinRx then 0 else c.decayMinRx);
        s := s.(inDecay := false);
        DecayUpdate(now, rxPackets);
      }
    }

    /** The concatenated path in `bfd_configure`. */
    method ConfigureCpath(c: Config, now: int, rxPackets: nat) returns (changed: bool)
      requires s.state != AdminDown
      modifies this
      ensures changed == (old(s).cpathDown != c.cpathDown)
      ensures if changed then StateSet(old(s).(cpathDown := c.cpathDown), s.state, NoDiag, now, rxPackets, s) && s.state == old(s).state else s == old(s)
    {
      changed := s.cpathDown != c.cpathDown;
      if changed {
        s := s.(cpathDown := c.cpathDown);
        SetState(s.state, NoDiag, now, rxPackets);
      }
    }

    /** The interval, decay and path parts of `bfd_configure`, before it polls. */
    method ConfigureFields(c: Config, now: int, rxPackets: nat) returns (changed: bool)
      requires Valid()
      modifies this
      ensures Valid() && ConfiguredFields(old(s), c, s)
      ensures s.poll == old(s).poll && s.nextTx == old(s).nextTx && s.pollMinTx == old(s).pollMinTx && s.pollMinRx == old(s).pollMinRx
      ensures changed == ConfigChanged(old(s), c, s)
    {
      var txChanged, rxChanged := ConfigureRates(c);
      var decayChanged := ConfigureDecay(c, rxChanged, now, rxPackets);
      var cpathChanged := ConfigureCpath(c, now, rxPackets);
      changed := txChanged || rxChanged || decayChanged || cpathChanged;
    }

    /** `bfd_configure` of an existing session. */
    method Configure(c: Config, now: int, rxPackets: nat)
      requires Valid()
      modifies this
      ensures Valid() && Configured(old(s), c, s)
    {
      hide Max, InUse;
      var changed := ConfigureFields(c, now, rxPackets);
      if changed {
        Poll();
      }
    }
  }
}
