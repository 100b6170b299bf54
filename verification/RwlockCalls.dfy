/**
 What the calls of the fat reader-writer lock return with, in every run: how deep the
 caller is afterwards, and when `fat_rwlock_tryrdlock` is granted.
 */
module RwlockCalls {
  import opened FatRwlock
  import opened RwlockProgress

  /** The thread is inside call 'op', which it made at depth 'd'. */
  predicate During(op: Op, d: nat, x: Thread) {
    match x.pc
    case Create(o) => o == op && d == 0
    case Push(o) => o == op && d == 0
    case Pushed(o) => o == op && d == 0 && x.depth == 0
    case Switch(o) => o == op && x.depth == d
    case RdLock => op == Rd && d == 0 == x.depth
    case RdInc => (op == Rd || op == TryRd) && x.depth == d
    case WrList => op == Wr && d == 0
    case WrSlot(_) => op == Wr && d == 0
    case UnSlot(_) => op == Un && d == UINT_MAX
    case UnList => op == Un && d == UINT_MAX
    case UnWriter => op == Un && d == UINT_MAX
    case UnOwn => op == Un && d == 1 == x.depth
    case UnDec => op == Un && x.depth == d
    case ExLock => op == Exit && x.depth == d
    case ExFree => op == Exit && x.depth == d
    case ExUnlock => op == Exit && d == 0
    case _ => false
  }

  /** What the caller holds after call 'op' at depth 'd' has returned. */
  predicate Returned(op: Op, d: nat, x: Thread) {
    match op
    case Rd => d < UINT_MAX && x.depth == d + 1 && InRead(x)
    case TryRd => x.depth == d || (d < UINT_MAX && x.depth == d + 1 && InRead(x))
    case Wr => d == 0 && InWrite(x)
    case Un => d > 0 && x.depth == if d == UINT_MAX then 0 else d - 1
    case Exit => false
  }

  lemma CallStarts(s: State, t: Tid, op: Op)
    requires Inv(s) && t in s.th && s.th[t].pc == Idle && Call(s, t, op).th[t].pc !in {Aborted, Dead}
    ensures During(op, s.th[t].depth, Call(s, t, op).th[t])
  {
    hide Inv;
    PcOf(s, t);
  }

  /** A call goes on, returns, aborts, or was the exit of the thread. */
  lemma CallGoesOn(s: State, t: Tid, op: Op, d: nat)
    requires Inv(s) && t in s.th && Runnable(s, t) && During(op, d, s.th[t])
    ensures var x := Run(s, t).th[t];
            x.pc in {Aborted, Dead} || (if x.pc == Idle then Returned(op, d, x) else During(op, d, x))
  {
    hide Inv;
    PcOf(s, t);
  }

  /** 'op' is the call that 't' makes from state 'a' of the run, and that it is in until state 'b'. */
  ghost predicate Spans(run: seq<State>, a: nat, b: nat, t: Tid, op: Op)
    requires IsRun(run)
  {
    && a < b < |run| && t in run[a].th && run[a].th[t].pc == Idle && run[a + 1] == Call(run[a], t, op)
    && forall i :: a < i < b ==> t in run[i].th && run[i].th[t].pc !in {Idle, Aborted, Dead}
  }

  lemma {:induction false} InsideCall(run: seq<State>, a: nat, b: nat, t: Tid, op: Op)
    requires IsRun(run) && Spans(run, a, b, t, op) && t in run[b].th && run[b].th[t].pc !in {Aborted, Dead}
    ensures if run[b].th[t].pc == Idle then Returned(op, run[a].th[t].depth, run[b].th[t]) else During(op, run[a].th[t].depth, run[b].th[t])
    decreases b
  {
    hide Inv, Init, Exclusive, Call, Run, Moves, Returned, During, Crashed;
    var d := run[a].th[t].depth;
    RunInvariant(run, b - 1);
    assert Step(run[b - 1], run[b - 1 + 1]);
    StepFrom(run[b - 1], run[b]);
    if b == a + 1 {
      CallStarts(run[a], t, op);
      NotIdle(op, d, run[b].th[t]);
    } else {
      InsideCall(run, a, b - 1, t, op);
      var u :| Moves(run[b - 1], run[b], u);
      if u == t {
        OwnMove(run[b - 1], run[b], t);
        CallGoesOn(run[b - 1], t, op, d);
      } else {
        OthersKeep(run[b - 1], run[b], t, u);
        OnlyMutex(op, d, run[b - 1].th[t], run[b].th[t].mutex);
      }
    }
  }

  lemma NotIdle(op: Op, d: nat, x: Thread)
    requires During(op, d, x)
    ensures x.pc != Idle
  {
  }

  lemma OwnMove(s: State, s': State, t: Tid)
    requires Moves(s, s', t) && s.th[t].pc != Idle
    ensures Runnable(s, t) && s' == Run(s, t)
  {
    hide Run, Call, Runnable;
  }

  lemma OnlyMutex(op: Op, d: nat, x: Thread, m: Option<Tid>)
    requires During(op, d, x)
    ensures During(op, d, x.(mutex := m))
  {
  }

  /**
   Every call that returns does what it is for: a read lock is held one level deeper, a
   write lock is held, an unlock takes one level or the write lock away, and a try either
   gets the read lock or leaves the depth alone.
   */
  lemma CallsReturn(run: seq<State>, a: nat, b: nat, t: Tid, op: Op)
    requires IsRun(run) && Spans(run, a, b, t, op) && t in run[b].th && run[b].th[t].pc == Idle
    ensures Returned(op, run[a].th[t].depth, run[b].th[t])
  {
    hide Returned, During, Call;
    InsideCall(run, a, b, t, op);
  }

  /** Whether `fat_rwlock_tryrdlock` gets the lock, by the caller's depth and its own mutex alone. */
  predicate Granted(x: Thread) {
    0 < x.depth < UINT_MAX || (x.depth == 0 && x.mutex == None)
  }

  /**
   `fat_rwlock_tryrdlock` never waits.  It gets the lock if and only if the thread is a
   reader already or nobody holds its slot's mutex; otherwise it leaves everything alone.
   */
  lemma TryNeverWaits(s: State, t: Tid)
    requires Inv(s) && t in s.th && s.th[t].pc == Switch(TryRd)
    ensures Runnable(s, t)
    ensures !Granted(s.th[t]) ==> Run(s, t) == Goto(s, t, Idle)
    ensures Granted(s.th[t]) ==>
              && Runnable(Run(s, t), t)
              && var s' := Run(Run(s, t), t);
                 && s'.th[t] == Thread(Idle, true, s.th[t].depth + 1, Some(t)) && InRead(s'.th[t])
                 && s'.list == s.list && s'.listMutex == s.listMutex
                 && forall u :: u in s.th && u != t ==> s'.th[u] == s.th[u]
  {
    hide Inv;
    PcOf(s, t);
  }

  /** While nobody holds the list's mutex nobody writes, and a try at depth 0 is granted. */
  lemma TryFreeIsGranted(s: State, t: Tid)
    requires Inv(s) && t in s.th && s.th[t].pc == Switch(TryRd) && s.listMutex == None && s.th[t].depth == 0
    ensures Granted(s.th[t])
  {
    PcOf(s, t);
    if s.th[t].mutex.Some? {
      var k :| 0 <= k < |s.list| && s.list[k] == t;
      var u := s.th[t].mutex.value;
      assert HoldsSlot(s.th[u], k) && HoldsList(s.th[u]);
    }
  }

  /** The number of own steps that a call can still take; 'n' is the length of the list. */
  function StepsLeft(x: Thread, n: nat): nat {
    match x.pc
    case Create(_) => 4 * n + 20
    case Push(_) => 4 * n + 19
    case Pushed(_) => 4 * n + 10
    case Switch(_) => 4 * n + 9
    case RdLock => 2
    case RdInc => 1
    case WrList => 4 * n + 8
    case WrSlot(i) => 1 + if i <= n then n - i else 0
    case UnSlot(i) => 3 + if i <= n then n - i else 0
    case UnList => 2
    case UnWriter => 1
    case UnOwn => 2
    case UnDec => 1
    case ExLock => 3
    case ExFree => 2
    case ExUnlock => 1
    case _ => 0
  }

  /** A call never idles: each step of its thread that it need not wait for brings it nearer to its end. */
  lemma CallsEnd(s: State, t: Tid)
    requires Inv(s) && t in s.th && Runnable(s, t)
    ensures StepsLeft(Run(s, t).th[t], |Run(s, t).list|) < StepsLeft(s.th[t], |s.list|)
  {
    hide Inv;
    PcOf(s, t);
  }

  /** The steps that abort: a read lock or a second write lock by a writer, a write lock by a reader, an unlock without a lock, an exit with one. */
  lemma AbortsExactly(s: State, t: Tid)
    requires Inv(s) && t in s.th && Runnable(s, t)
    ensures var x := s.th[t];
            Run(s, t).th[t].pc == Aborted <==>
              || (x.pc == Switch(Rd) && x.depth == UINT_MAX)
              || (x.pc == Switch(Wr) && x.depth > 0)
              || (x.pc == Switch(Un) && x.depth == 0)
              || (x.pc == ExFree && x.depth > 0)
  {
    hide Inv;
    PcOf(s, t);
  }
}
