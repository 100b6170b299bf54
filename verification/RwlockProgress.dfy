/**
 Progress of the fat reader-writer lock: when threads that wait for a mutex can be let
 through, the one way to hang, and the limit on nesting.
 */
module RwlockProgress {
  import opened FatRwlock

  // ----- reachable states

  ghost predicate Reachable(s: State) {
    exists run :: IsRun(run) && run[|run| - 1] == s
  }

  lemma ReachStep(s: State, s': State, t: Tid)
    requires Reachable(s) && Moves(s, s', t)
    ensures Reachable(s')
  {
    hide Init, Moves;
    var run :| IsRun(run) && run[|run| - 1] == s;
    var longer := run + [s'];
    forall i | 0 <= i < |longer| - 1 ensures Step(longer[i], longer[i + 1]) {
      if i < |run| - 1 { assert Step(run[i], run[i + 1]); }
    }
    assert longer[|longer| - 1] == s' && longer[0] == run[0];
  }

  lemma ReachCall(s: State, t: Tid, op: Op)
    requires Reachable(s) && !Crashed(s) && t in s.th && s.th[t].pc == Idle && MayCall(s.th[t], op)
    ensures Reachable(Call(s, t, op))
  {
    hide Reachable, Call;
    ReachStep(s, Call(s, t, op), t);
  }

  lemma ReachRun(s: State, t: Tid)
    requires Reachable(s) && !Crashed(s) && t in s.th && Runnable(s, t)
    ensures Reachable(Run(s, t))
  {
    hide Reachable, Run;
    ReachStep(s, Run(s, t), t);
  }

  lemma ReachInv(s: State)
    requires Reachable(s)
    ensures (Inv(s) || Crashed(s)) && Exclusive(s)
  {
    hide Inv, Exclusive;
    var run :| IsRun(run) && run[|run| - 1] == s;
    RunInvariant(run, |run| - 1);
  }

  // ----- what cannot be let through

  /** A call against the rules: it ends in an abort, or waits for a mutex that never comes. */
  predicate Breaks(x: Thread) {
    || ((x.pc == ExLock || x.pc == ExFree || x.pc == Switch(Wr)) && x.depth > 0)
    || (x.pc == Switch(Rd) && x.depth == UINT_MAX)
  }

  /** The holder of the list's mutex has broken the rules, or waits in vain for a reader that has. */
  ghost predicate Doomed(s: State) {
    && s.listMutex.Some? && s.listMutex.value in s.th
    && var x := s.th[s.listMutex.value];
       Breaks(x) || (x.pc.WrSlot? && exists k :: x.pc.next <= k < |s.list| && InVain(s, k))
  }

  predicate InVain(s: State, k: nat)
    requires k < |s.list|
  {
    s.list[k] in s.th && HoldsOwn(s.th[s.list[k]]) && Breaks(s.th[s.list[k]])
  }

  /** A step of another thread leaves this thread's program counter and depth. */
  lemma OthersKeep(s: State, s': State, t: Tid, u: Tid)
    requires Moves(s, s', u) && t in s.th && t != u
    ensures t in s'.th && s'.th[t] == s.th[t].(mutex := s'.th[t].mutex)
  {
  }

  /** While one thread holds the list's mutex, a step of another leaves it and the list. */
  lemma HolderKeeps(s: State, s': State, h: Tid, u: Tid)
    requires Inv(s) && Moves(s, s', u) && s.listMutex == Some(h) && u != h
    ensures s'.listMutex == s.listMutex && s'.list == s.list
  {
    hide SlotsOk, ListOk, PcOk;
    assert !HoldsList(s.th[u]);
  }

  lemma BreaksStays(s: State, s': State, u: Tid)
    requires Inv(s) && Moves(s, s', u) && Breaks(s.th[u]) && !(s.th[u].pc == ExLock && s.listMutex == None)
    ensures Crashed(s')
  {
    hide SlotsOk, ListOk, ListMutexOk;
    PcOf(s, u);
    assert s'.th[u].pc == Aborted;
  }

  lemma InVainStays(s: State, s': State, h: Tid, u: Tid, k: nat)
    requires Inv(s) && Moves(s, s', u) && s.listMutex == Some(h) && h in s.th && s.th[h].pc.WrSlot?
    requires s.th[h].pc.next <= k < |s.list| && InVain(s, k)
    ensures Crashed(s') || (s'.listMutex == Some(h) && Doomed(s'))
  {
    hide Inv, Run, Call, HoldsOwn, Breaks, Crashed;
    var v := s.list[k];
    if u == v {
      BreaksStays(s, s', u);
    } else {
      OthersKeep(s, s', v, u);
      SameBreaks(s.th[v], s'.th[v].mutex);
      if u == h {
        WriterGoes(s, s', h, k);
      } else {
        OthersKeep(s, s', h, u);
        HolderKeeps(s, s', h, u);
      }
      assert InVain(s', k);
    }
  }

  lemma SameBreaks(x: Thread, m: Option<Tid>)
    ensures Breaks(x.(mutex := m)) == Breaks(x) && HoldsOwn(x.(mutex := m)) == HoldsOwn(x)
  {
  }

  /** A writer cannot get past a slot that its own thread holds. */
  lemma WriterGoes(s: State, s': State, h: Tid, k: nat)
    requires Inv(s) && Moves(s, s', h) && h in s.th && s.th[h].pc.WrSlot? && s.listMutex == Some(h)
    requires s.th[h].pc.next <= k < |s.list| && s.list[k] in s.th && HoldsOwn(s.th[s.list[k]])
    ensures s'.th.Keys == s.th.Keys && s'.listMutex == Some(h) && s'.list == s.list && s'.th[h].pc.WrSlot? && s'.th[h].pc.next <= k
  {
    hide Inv, Crashed, Run;
    PcOf(s, s.list[k]);
    WriterTakes(s, h);
  }

  lemma WriterTakes(s: State, h: Tid)
    requires h in s.th && s.th[h].pc.WrSlot? && s.th[h].pc.next < |s.list| && Runnable(s, h)
    ensures var s' := Run(s, h);
            s'.listMutex == s.listMutex && s'.list == s.list && s'.th[h].pc == WrSlot(s.th[h].pc.next + 1)
  {
  }

  /** A doomed holder never lets go of the list's mutex, whatever the threads do. */
  lemma DoomedStays(s: State, s': State)
    requires Inv(s) && Doomed(s) && Step(s, s')
    ensures Crashed(s') || (Inv(s') && Doomed(s') && s'.listMutex == s.listMutex)
  {
    hide Inv, Run, Call, Breaks, InVain, Crashed, Exclusive;
    var u :| Moves(s, s', u);
    var h := s.listMutex.value;
    MovesKeep(s, s', u);
    if Breaks(s.th[h]) {
      if u == h {
        BreaksStays(s, s', h);
      } else {
        OthersKeep(s, s', h, u);
        HolderKeeps(s, s', h, u);
        SameBreaks(s.th[h], s'.th[h].mutex);
      }
    } else {
      var k :| s.th[h].pc.next <= k < |s.list| && InVain(s, k);
      InVainStays(s, s', h, u, k);
    }
  }

  // ----- letting the others through

  /** The steps of some way on from a state. */
  ghost predicate Path(path: seq<State>) {
    path != [] && forall i :: 0 <= i < |path| - 1 ==> Step(path[i], path[i + 1])
  }

  /** Some way on leads to a state in which nobody waits for a mutex. */
  ghost predicate CanRelease(s: State) {
    exists path :: Path(path) && path[0] == s && Released(path[|path| - 1])
  }

  ghost predicate Released(s: State) {
    !Crashed(s) && s.listMutex == None
  }

  lemma ReleaseBefore(s: State, s': State)
    requires Step(s, s') && CanRelease(s')
    ensures CanRelease(s)
  {
    hide Step, Released;
    var path :| Path(path) && path[0] == s' && Released(path[|path| - 1]);
    var longer := [s] + path;
    forall i | 0 <= i < |longer| - 1 ensures Step(longer[i], longer[i + 1]) {
      if i > 0 { assert Step(path[i - 1], path[i - 1 + 1]); }
    }
    assert longer[|longer| - 1] == path[|path| - 1];
  }

  lemma ReleaseNow(s: State)
    requires Released(s)
    ensures CanRelease(s)
  {
    hide Released;
    assert Path([s]) && [s][0] == s && [s][|[s]| - 1] == s;
  }

  /** How far the holder of the list's mutex is from releasing it. */
  function HolderWork(x: Thread, n: nat): nat {
    match x.pc
    case WrSlot(i) => (if i <= n then n - i else 0) + n + 10
    case Idle => n + 5
    case Switch(op) => if op == Un then n + 4 else n + 6
    case UnSlot(i) => (if i <= n then n - i else 0) + 2
    case UnList => 1
    case Push(_) => 2
    case Pushed(_) => 1
    case ExFree => 2
    case ExUnlock => 1
    case _ => 0
  }

  /** How far a reader is from releasing its slot's mutex. */
  function ReaderWork(x: Thread): nat {
    if !HoldsOwn(x) then 0
    else match x.pc
      case Idle => 4 * x.depth
      case Switch(op) => if op == Un && x.depth > 0 then 4 * x.depth - 1 else 4 * x.depth + 6
      case RdInc => 4 * x.depth + 5
      case UnOwn => 2
      case UnDec => if x.depth > 0 then 4 * x.depth - 2 else 0
      case _ => 0
  }

  function WaitedFor(s: State): nat {
    if s.listMutex.Some? && s.listMutex.value in s.th then
      var pc := s.th[s.listMutex.value].pc;
      if pc.WrSlot? && pc.next < |s.list| && s.list[pc.next] in s.th then ReaderWork(s.th[s.list[pc.next]]) else 0
    else 0
  }

  /** The next step of a thread in this state: a client in a critical section unlocks. */
  function Next(s: State, t: Tid): (s': State)
    requires t in s.th
    ensures s'.th.Keys == s.th.Keys
  {
    if Runnable(s, t) then Run(s, t) else if s.th[t].pc == Idle then Call(s, t, Un) else s
  }

  lemma HolderOf(s: State)
    requires Inv(s) && !Crashed(s) && s.listMutex.Some?
    ensures var h := s.listMutex.value; h in s.th && HoldsList(s.th[h]) && s.th[h].pc != Aborted && PcOk(s.th[h], |s.list|)
  {
  }

  lemma NextMoves(s: State, t: Tid)
    requires !Crashed(s) && t in s.th && (Runnable(s, t) || s.th[t].pc == Idle)
    ensures Moves(s, Next(s, t), t)
  {
    hide Call, Run, Runnable, Crashed;
    if s.th[t].pc == Idle {
      assert MayCall(s.th[t], Un) && Call(s, t, Un) == Next(s, t) by { IdleNext(s, t); }
    }
  }

  lemma IdleNext(s: State, t: Tid)
    requires t in s.th && s.th[t].pc == Idle
    ensures Next(s, t) == Call(s, t, Un)
  {
  }

  /** The holder that is not blocked takes a step towards the release. */
  lemma HolderAdvances(s: State, h: Tid)
    requires Inv(s) && !Crashed(s) && s.listMutex == Some(h) && h in s.th && !Breaks(s.th[h]) && !Blocked(s, h)
    ensures var s' := Next(s, h);
            && Moves(s, s', h) && s'.th[h].pc != Aborted && !Breaks(s'.th[h])
            && (s'.listMutex == None || (s'.listMutex == Some(h) && HolderWork(s'.th[h], |s'.list|) < HolderWork(s.th[h], |s.list|)))
            && (s'.th[h].pc.WrSlot? ==> s'.list == s.list && s.th[h].pc.WrSlot? && s.th[h].pc.next < s'.th[h].pc.next)
  {
    hide Inv, Crashed, Moves;
    HolderOf(s);
    NextMoves(s, h);
  }

  /** So does a reader that the holder waits for. */
  lemma ReaderAdvances(s: State, v: Tid)
    requires Inv(s) && !Crashed(s) && v in s.th && HoldsOwn(s.th[v]) && !Breaks(s.th[v])
    ensures var s' := Next(s, v);
            && Moves(s, s', v) && s'.th[v].pc != Aborted && !Breaks(s'.th[v]) && s'.list == s.list && s'.listMutex == s.listMutex
            && ReaderWork(s'.th[v]) < ReaderWork(s.th[v])
  {
    hide Inv, Crashed, Moves;
    PcOf(s, v);
    NotAborted(s, v);
    NextMoves(s, v);
  }

  lemma NotAborted(s: State, t: Tid)
    requires !Crashed(s) && t in s.th
    ensures s.th[t].pc != Aborted
  {
  }

  /** A step that does not abort keeps the invariant. */
  lemma GoodStep(s: State, s': State, u: Tid)
    requires Inv(s) && Moves(s, s', u) && u in s'.th && s'.th[u].pc != Aborted
    ensures Inv(s') && !Crashed(s')
  {
    hide Inv, Exclusive, Run, Call, Moves;
    MovesKeep(s, s', u);
    forall t | t in s'.th ensures s'.th[t].pc != Aborted {
      SameThreads(s, s', u);
      if t != u {
        NotAborted(s, t);
        OthersKeep(s, s', t, u);
      }
    }
  }

  lemma SameThreads(s: State, s': State, u: Tid)
    requires Moves(s, s', u)
    ensures s'.th.Keys == s.th.Keys && !Crashed(s)
  {
    hide Run, Call, Crashed;
  }

  /** A reader waits in vain only where one did before, unless it is the thread that moved. */
  lemma InVainBefore(s: State, s': State, u: Tid, k: nat)
    requires Moves(s, s', u) && s'.list == s.list && k < |s.list| && InVain(s', k) && u in s'.th && !Breaks(s'.th[u])
    ensures InVain(s, k)
  {
    hide Moves, HoldsOwn, Breaks;
    SameThreads(s, s', u);
    var v := s.list[k];
    OthersKeep(s, s', v, u);
    SameBreaks(s.th[v], s'.th[v].mutex);
  }

  /** A thread that keeps the rules dooms nobody. */
  lemma DoomedBefore(s: State, s': State, u: Tid)
    requires Moves(s, s', u) && s'.listMutex == s.listMutex && Doomed(s') && u in s'.th && !Breaks(s'.th[u])
    requires var h := s.listMutex.value;
             h in s.th && (s'.th[h].pc.WrSlot? ==> s'.list == s.list && s.th[h].pc.WrSlot? && s.th[h].pc.next <= s'.th[h].pc.next)
    ensures Doomed(s)
  {
    hide Moves, HoldsOwn, Breaks, InVain;
    var h := s.listMutex.value;
    if Breaks(s'.th[h]) {
      OthersKeep(s, s', h, u);
      SameBreaks(s.th[h], s'.th[h].mutex);
    } else {
      var k :| s'.th[h].pc.next <= k < |s'.list| && InVain(s', k);
      InVainBefore(s, s', u, k);
    }
  }

  /** A blocked holder waits for the reader whose slot is next. */
  lemma WaitsForReader(s: State, h: Tid)
    requires Inv(s) && !Crashed(s) && s.listMutex == Some(h) && h in s.th && Blocked(s, h)
    ensures s.th[h].pc.WrSlot? && s.th[h].pc.next < |s.list| && s.list[s.th[h].pc.next] in s.th
    ensures HoldsOwn(s.th[s.list[s.th[h].pc.next]]) && s.list[s.th[h].pc.next] != h
  {
    hide PcOk, ListOk;
    HolderOf(s);
    var i := s.th[h].pc.next;
    var v := s.th[s.list[i]].mutex.value;
    SlotNeedsList(s.th[v], i);
    assert PcOk(s.th[h], |s.list|);
    WriterIsNoReader(s.th[h], |s.list|);
  }

  lemma SlotNeedsList(x: Thread, k: nat)
    ensures HoldsSlot(x, k) ==> HoldsList(x)
  {
  }

  lemma WriterIsNoReader(x: Thread, n: nat)
    requires PcOk(x, n) && x.pc.WrSlot?
    ensures !HoldsOwn(x)
  {
  }

  ghost predicate Alive(s: State) {
    Inv(s) && !Crashed(s) && s.listMutex.Some? && !Doomed(s)
  }

  /** A step that keeps the rules, and the list's mutex, keeps the way to the release open. */
  lemma AliveStep(s: State, s': State, u: Tid)
    requires Alive(s) && Moves(s, s', u) && u in s'.th && s'.th[u].pc != Aborted && !Breaks(s'.th[u]) && s'.listMutex == s.listMutex
    requires var h := s.listMutex.value;
             h in s.th && (s'.th[h].pc.WrSlot? ==> s'.list == s.list && s.th[h].pc.WrSlot? && s.th[h].pc.next <= s'.th[h].pc.next)
    ensures Alive(s')
  {
    hide Inv, Crashed, Moves, Doomed;
    GoodStep(s, s', u);
    if Doomed(s') { DoomedBefore(s, s', u); }
  }

  ghost function Holder(s: State): Thread
    requires Alive(s)
  {
    HolderOf(s);
    s.th[s.listMutex.value]
  }

  /** From every state that is not doomed, some way on releases the list's mutex. */
  lemma {:induction false} Release(s: State)
    requires Alive(s)
    ensures CanRelease(s)
    decreases HolderWork(Holder(s), |s.list|), WaitedFor(s)
  {
    hide Inv, Crashed, CanRelease, Breaks, Next, Moves, HolderWork, ReaderWork, InVain, Blocked;
    HolderOf(s);
    var h := s.listMutex.value;
    if Blocked(s, h) {
      WaitsForReader(s, h);
      var i := s.th[h].pc.next;
      var v := s.list[i];
      assert InVain(s, i) <==> Breaks(s.th[v]) by { InVainMeans(s, i); }
      ReaderAdvances(s, v);
      var s' := Next(s, v);
      OthersKeep(s, s', h, v);
      AliveStep(s, s', v);
      SameWork(s.th[h], s'.th[h].mutex, |s.list|);
      Release(s');
      ReleaseBefore(s, s');
    } else {
      HolderAdvances(s, h);
      var s' := Next(s, h);
      if s'.listMutex == None {
        GoodStep(s, s', h);
        ReleaseNow(s');
      } else {
        AliveStep(s, s', h);
        Release(s');
      }
      ReleaseBefore(s, s');
    }
  }

  lemma InVainMeans(s: State, k: nat)
    requires k < |s.list| && s.list[k] in s.th && HoldsOwn(s.th[s.list[k]])
    ensures InVain(s, k) <==> Breaks(s.th[s.list[k]])
  {
  }

  lemma SameWork(x: Thread, m: Option<Tid>, n: nat)
    ensures HolderWork(x.(mutex := m), n) == HolderWork(x, n)
  {
  }

  // ----- the exact condition

  lemma {:induction false} DoomedPath(path: seq<State>, k: nat)
    requires Path(path) && Inv(path[0]) && Doomed(path[0]) && k < |path|
    ensures Crashed(path[k]) || (Inv(path[k]) && Doomed(path[k]))
  {
    hide Inv, Doomed, Crashed, Step;
    if k > 0 {
      DoomedPath(path, k - 1);
      assert Step(path[k - 1], path[k - 1 + 1]);
      StepFrom(path[k - 1], path[k]);
      DoomedStays(path[k - 1], path[k]);
    }
  }

  lemma StepFrom(s: State, s': State)
    requires Step(s, s')
    ensures !Crashed(s)
  {
  }

  /**
   Progress: in a state of any run that has not aborted, some way on releases the list's
   mutex if and only if its holder keeps the rules and so do the readers it waits for.
   */
  lemma ReleaseExact(run: seq<State>, k: nat)
    requires IsRun(run) && k < |run| && !Crashed(run[k]) && run[k].listMutex.Some?
    ensures CanRelease(run[k]) <==> !Doomed(run[k])
  {
    hide Inv, Crashed, Doomed, Exclusive;
    RunInvariant(run, k);
    var s := run[k];
    if Doomed(s) {
      forall path | Path(path) && path[0] == s ensures !Released(path[|path| - 1]) {
        DoomedPath(path, |path| - 1);
        DoomedHeld(path[|path| - 1]);
      }
    } else {
      Release(s);
    }
  }

  lemma DoomedHeld(s: State)
    ensures Doomed(s) ==> s.listMutex.Some?
  {
  }

  /** The list's mutex is all that threads wait for: once it is released, nobody is blocked. */
  lemma ReleasedIsFree(s: State, t: Tid)
    requires Inv(s) && Released(s) && t in s.th
    ensures !Blocked(s, t)
  {
    hide Inv, Blocked;
    if Blocked(s, t) { BlockedMeans(s, t); }
  }

  /**
   No deadlock among threads that keep the rules: whenever a thread waits for a mutex and
   no thread has broken the rules, some way on leads to a state in which nobody waits.
   */
  lemma RunsProgress(run: seq<State>, k: nat, t: Tid)
    requires IsRun(run) && k < |run| && !Crashed(run[k]) && t in run[k].th && Blocked(run[k], t)
    requires forall u :: u in run[k].th ==> !Breaks(run[k].th[u])
    ensures exists path :: Path(path) && path[0] == run[k] && Free(path[|path| - 1])
  {
    hide Inv, Crashed, Breaks, Blocked, Exclusive;
    var s := run[k];
    RunInvariant(run, k);
    BlockedMeans(s, t);
    ReleaseExact(run, k);
    var path :| Path(path) && path[0] == s && Released(path[|path| - 1]);
    PathInv(path, |path| - 1);
    FreeNow(path[|path| - 1]);
  }

  /** The process has not aborted and nobody waits. */
  ghost predicate Free(s: State) {
    !Crashed(s) && forall t :: t in s.th ==> !Blocked(s, t)
  }

  lemma FreeNow(s: State)
    requires Inv(s) && Released(s)
    ensures Free(s)
  {
    hide Inv, Blocked, Crashed;
    forall t | t in s.th ensures !Blocked(s, t) { ReleasedIsFree(s, t); }
  }

  lemma {:induction false} PathInv(path: seq<State>, k: nat)
    requires Path(path) && Inv(path[0]) && k < |path|
    ensures Inv(path[k]) || Crashed(path[k])
  {
    hide Inv, Crashed, Moves, Exclusive;
    if k > 0 {
      PathInv(path, k - 1);
      assert Step(path[k - 1], path[k - 1 + 1]);
      var t :| Moves(path[k - 1], path[k], t);
      SameThreads(path[k - 1], path[k], t);
      MovesKeep(path[k - 1], path[k], t);
    }
  }

  // ----- the hang

  /** A state with two threads. */
  function Ex(th0: Thread, th1: Thread, list: seq<Tid>, listMutex: Option<Tid>): (s: State)
    ensures s.th.Keys == {0, 1} && s.th[0] == th0 && s.th[1] == th1 && s.list == list && s.listMutex == listMutex
  {
    State(list, listMutex, map[0 := th0, 1 := th1])
  }

  /** The same two-thread state. */
  predicate Same(s: State, s': State)
    requires s.th.Keys == {0, 1} == s'.th.Keys
  {
    s.list == s'.list && s.listMutex == s'.listMutex && s.th[0] == s'.th[0] && s.th[1] == s'.th[1]
  }

  predicate Two(s: State) {
    s.th.Keys == {0, 1} && s.th[0].pc != Aborted && s.th[1].pc != Aborted
  }

  /** A reader that has exited, and a writer that waits for its slot. */
  const HANG: State := Ex(Thread(WrSlot(0), true, UINT_MAX, None), Thread(ExLock, true, 1, Some(1)), [1, 0], Some(0))

  const NEW_THREAD: Thread := Thread(Idle, false, 0, None)

  /** Thread 1 takes the read lock. */
  const READING: State := Ex(NEW_THREAD, READER, [1], None)

  const READER: Thread := Thread(Idle, true, 1, Some(1))

  /** Thread 1 makes a slot for its first call. */
  lemma FirstSlot()
    ensures Reachable(Ex(NEW_THREAD, Thread(Switch(Rd), true, 0, None), [1], None))
  {
    hide Reachable, Ex;
    FirstAllocates();
    var s2 := Ex(NEW_THREAD, NEW_THREAD.(pc := Push(Rd)), [], Some(1));
    var s3 := Ex(NEW_THREAD, Thread(Pushed(Rd), true, 0, None), [1], Some(1));
    Runs(s2, s3, 1);
    Runs(s3, Ex(NEW_THREAD, Thread(Switch(Rd), true, 0, None), [1], None), 1);
  }

  lemma FirstAllocates()
    ensures Reachable(Ex(NEW_THREAD, NEW_THREAD.(pc := Push(Rd)), [], Some(1)))
  {
    hide Reachable, Ex;
    var n := NEW_THREAD;
    assert Reachable(Ex(n, n, [], None)) by { ReachInit(Ex(n, n, [], None)); }
    var s1 := Ex(n, n.(pc := Create(Rd)), [], None);
    Calls(Ex(n, n, [], None), s1, 1, Rd);
    Runs(s1, Ex(n, n.(pc := Push(Rd)), [], Some(1)), 1);
  }

  lemma FirstReader()
    ensures Reachable(READING)
  {
    hide Reachable, Ex;
    var n := NEW_THREAD;
    FirstSlot();
    var s5 := Ex(n, Thread(RdLock, true, 0, None), [1], None);
    Runs(Ex(n, Thread(Switch(Rd), true, 0, None), [1], None), s5, 1);
    var s6 := Ex(n, Thread(RdInc, true, 0, Some(1)), [1], None);
    Runs(s5, s6, 1);
    Runs(s6, READING, 1);
  }

  /** Thread 0 makes a slot for its first call. */
  lemma SecondSlot(op: Op)
    requires op == Rd || op == Wr
    ensures Reachable(Ex(Thread(Switch(op), true, 0, None), READER, [1, 0], None))
  {
    hide Reachable, Ex;
    SecondAllocates(op);
    var s2 := Ex(NEW_THREAD.(pc := Push(op)), READER, [1], Some(0));
    var s3 := Ex(Thread(Pushed(op), true, 0, None), READER, [1, 0], Some(0));
    Runs(s2, s3, 0);
    Runs(s3, Ex(Thread(Switch(op), true, 0, None), READER, [1, 0], None), 0);
  }

  lemma SecondAllocates(op: Op)
    requires op == Rd || op == Wr
    ensures Reachable(Ex(NEW_THREAD.(pc := Push(op)), READER, [1], Some(0)))
  {
    hide Reachable, Ex;
    FirstReader();
    var s1 := Ex(NEW_THREAD.(pc := Create(op)), READER, [1], None);
    Calls(READING, s1, 0, op);
    Runs(s1, Ex(NEW_THREAD.(pc := Push(op)), READER, [1], Some(0)), 0);
  }

  lemma ReachInit(s: State)
    requires Init(s)
    ensures Reachable(s)
  {
    assert IsRun([s]) && [s][|[s]| - 1] == s;
  }

  lemma Calls(s: State, s': State, t: Tid, op: Op)
    requires Reachable(s) && Two(s) && s'.th.Keys == {0, 1} && t in s.th && s.th[t].pc == Idle && MayCall(s.th[t], op)
    requires Same(Call(s, t, op), s')
    ensures Reachable(s')
  {
    hide Reachable, Call;
    ReachCall(s, t, op);
    assert Call(s, t, op).th == s'.th;
  }

  lemma Runs(s: State, s': State, t: Tid)
    requires Reachable(s) && Two(s) && s'.th.Keys == {0, 1} && t in s.th && Runnable(s, t)
    requires Same(Run(s, t), s')
    ensures Reachable(s')
  {
    hide Reachable, Run;
    ReachRun(s, t);
    assert Run(s, t).th == s'.th;
  }

  /**
   The hang: a reader exits beside a waiting writer, so that its destructor waits for the
   list's mutex before it can abort.  Both threads are blocked and no step is left.
   */
  lemma ExitCanHang()
    ensures Reachable(HANG) && !Crashed(HANG) && Doomed(HANG)
    ensures Blocked(HANG, 0) && Blocked(HANG, 1) && forall s' :: !Step(HANG, s')
  {
    hide Reachable, Ex;
    SecondSlot(Wr);
    var s1 := Ex(Thread(WrList, true, UINT_MAX, None), READER, [1, 0], None);
    Runs(Ex(Thread(Switch(Wr), true, 0, None), READER, [1, 0], None), s1, 0);
    var s2 := Ex(Thread(WrSlot(0), true, UINT_MAX, None), READER, [1, 0], Some(0));
    Runs(s1, s2, 0);
    Calls(s2, HANG, 1, Exit);
    NoStep();
  }

  lemma NoStep()
    ensures !Crashed(HANG) && Doomed(HANG) && Blocked(HANG, 0) && Blocked(HANG, 1) && forall s' :: !Step(HANG, s')
  {
    hide Ex;
    assert HANG.list[0] == 1 && InVain(HANG, 0);
  }

  // ----- the limit on nesting

  /** Two readers, one of them nested to depth 'd'. */
  function TwoReaders(d: nat): State {
    Ex(Thread(Idle, true, d, Some(0)), Thread(Idle, true, 1, Some(1)), [1, 0], None)
  }

  /** A reader takes the read lock once more, in three steps. */
  function NestOnce(s: State): State
    requires 0 in s.th && s.th[0].pc == Idle && s.th[0].hasSlot && 1 <= s.th[0].depth < UINT_MAX
  {
    Run(Run(Call(s, 0, Rd), 0), 0)
  }

  /** The second reader comes after the first. */
  lemma TwoReadersStart()
    ensures Reachable(TwoReaders(1))
  {
    hide Reachable, Ex;
    SecondWaits();
    var s2 := Ex(Thread(RdInc, true, 0, Some(0)), READER, [1, 0], None);
    Runs(Ex(Thread(RdLock, true, 0, None), READER, [1, 0], None), s2, 0);
    Runs(s2, TwoReaders(1), 0);
  }

  lemma SecondWaits()
    ensures Reachable(Ex(Thread(RdLock, true, 0, None), READER, [1, 0], None))
  {
    hide Reachable, Ex;
    SecondSlot(Rd);
    Runs(Ex(Thread(Switch(Rd), true, 0, None), READER, [1, 0], None), Ex(Thread(RdLock, true, 0, None), READER, [1, 0], None), 0);
  }

  /** Every depth below UINT_MAX is reached by a run that keeps to the limit. */
  lemma {:induction false} TwoReadersReached(d: nat)
    requires 1 <= d < UINT_MAX
    ensures Reachable(TwoReaders(d))
  {
    hide Reachable, Ex;
    if d == 1 {
      TwoReadersStart();
    } else {
      TwoReadersReached(d - 1);
      var x := Thread(Idle, true, d - 1, Some(0));
      var s1 := Ex(x.(pc := Switch(Rd)), READER, [1, 0], None);
      Calls(TwoReaders(d - 1), s1, 0, Rd);
      var s2 := Ex(x.(pc := RdInc), READER, [1, 0], None);
      Runs(s1, s2, 0);
      Runs(s2, TwoReaders(d), 0);
    }
  }

  /**
   The bound on nesting is exact: one read lock past depth UINT_MAX - 1 makes a reader
   count as a writer beside another reader.
   */
  lemma NestingLimit(d: nat)
    requires 1 <= d < UINT_MAX
    ensures Reachable(TwoReaders(d)) && NestOnce(TwoReaders(d)) == TwoReaders(d + 1)
    ensures Exclusive(TwoReaders(d + 1)) <==> d + 1 < UINT_MAX
  {
    hide Reachable;
    TwoReadersReached(d);
    var s3 := TwoReaders(d + 1);
    assert NestOnce(TwoReaders(d)).th == s3.th;
    if d + 1 < UINT_MAX {
      TwoReadersReached(d + 1);
      ReachInv(s3);
    } else {
      assert InWrite(s3.th[0]) && InRead(s3.th[1]);
    }
  }
}
