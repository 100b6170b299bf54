/**
 The "fat" reader-writer lock of `lib/fat-rwlock.c` as a step relation over any number
 of threads: a slot with a mutex for each thread, and a mutex for the list of slots.
 */
module FatRwlock {
  type Tid = nat

  const UINT_MAX: nat := 0xffff_ffff

  datatype Option<+T> = None | Some(value: T)

  /** What a client thread may ask for; `Exit` runs the slot's destructor. */
  datatype Op = Rd | TryRd | Wr | Un | Exit

  /** Where a thread is.  `Idle` is outside every operation, perhaps inside a critical section. */
  datatype Pc =
    | Idle
    | Create(op: Op) | Push(op: Op) | Pushed(op: Op)
    | Switch(op: Op)
    | RdLock | RdInc
    | WrList | WrSlot(next: nat)
    | UnSlot(next: nat) | UnList | UnWriter
    | UnOwn | UnDec
    | ExLock | ExFree | ExUnlock
    | Dead | Aborted

  /** A thread with its slot: the slot's depth, and who holds the slot's mutex. */
  datatype Thread = Thread(pc: Pc, hasSlot: bool, depth: nat, mutex: Option<Tid>)

  /** The lock: the slots in list order, the holder of the list's mutex, and the threads. */
  datatype State = State(list: seq<Tid>, listMutex: Option<Tid>, th: map<Tid, Thread>)

  function Goto(s: State, t: Tid, pc: Pc): (s': State)
    requires t in s.th
    ensures s'.th.Keys == s.th.Keys
  {
    s.(th := s.th[t := s.th[t].(pc := pc)])
  }

  function Set(s: State, t: Tid, x: Thread): State {
    s.(th := s.th[t := x])
  }

  predicate Crashed(s: State) {
    exists t :: t in s.th && s.th[t].pc == Aborted
  }

  // ----- the steps

  /**
   A client call: straight to the operation, or first into `fat_rwlock_get_slot__`.  A
   writer that exits locks a mutex that it holds already, which aborts.
   */
  function Call(s: State, t: Tid, op: Op): (s': State)
    requires t in s.th
    ensures s'.th.Keys == s.th.Keys
  {
    if op == Exit then Goto(s, t, if s.th[t].depth == UINT_MAX then Aborted else if s.th[t].hasSlot then ExLock else Dead)
    else Goto(s, t, if s.th[t].hasSlot then Switch(op) else Create(op))
  }

  /** The thread has to wait for a mutex. */
  predicate Blocked(s: State, t: Tid)
    requires t in s.th
  {
    match s.th[t].pc
    case Create(_) => s.listMutex.Some?
    case WrList => s.listMutex.Some?
    case ExLock => s.listMutex.Some?
    case RdLock => s.th[t].mutex.Some?
    case WrSlot(i) => i < |s.list| && s.list[i] in s.th && s.th[s.list[i]].mutex.Some?
    case _ => false
  }

  predicate Runnable(s: State, t: Tid)
    requires t in s.th
  {
    !Blocked(s, t) && s.th[t].pc !in {Idle, Dead, Aborted}
  }

  /** The dispatch on 'depth' at the head of each operation. */
  function Dispatch(s: State, t: Tid, op: Op): (s': State)
    requires t in s.th
    ensures s'.th.Keys == s.th.Keys
  {
    var x := s.th[t];
    match op
    case Rd =>
      if x.depth == UINT_MAX then Goto(s, t, Aborted)
      else Goto(s, t, if x.depth == 0 then RdLock else RdInc)
    case TryRd =>
      if x.depth == UINT_MAX then Goto(s, t, Idle)
      else if x.depth > 0 then Goto(s, t, RdInc)
      else if x.mutex.Some? then Goto(s, t, Idle)
      else Set(s, t, x.(pc := RdInc, mutex := Some(t)))
    case Wr =>
      if x.depth != 0 then Goto(s, t, Aborted) else Set(s, t, x.(pc := WrList, depth := UINT_MAX))
    case Un =>
      Goto(s, t, if x.depth == UINT_MAX then UnSlot(0) else if x.depth == 0 then Aborted else if x.depth == 1 then UnOwn else UnDec)
    case Exit => Goto(s, t, ExLock)
  }

  function SetMutex(s: State, u: Tid, owner: Option<Tid>): State {
    if u in s.th then s.(th := s.th[u := s.th[u].(mutex := owner)]) else s
  }

  function Without(l: seq<Tid>, t: Tid): (r: seq<Tid>)
    ensures forall u :: u in r <==> u in l && u != t
  {
    if l == [] then [] else (if l[0] == t then [] else [l[0]]) + Without(l[1..], t)
  }

  /** One step of a thread that is inside an operation. */
  function Run(s: State, t: Tid): (s': State)
    requires t in s.th && Runnable(s, t)
    ensures s'.th.Keys == s.th.Keys
  {
    var x := s.th[t];
    match x.pc
    case Create(op) => Goto(s, t, Push(op)).(listMutex := Some(t))
    case Push(op) => Set(s, t, Thread(Pushed(op), true, 0, None)).(list := s.list + [t])
    case Pushed(op) => Goto(s, t, Switch(op)).(listMutex := None)
    case Switch(op) => Dispatch(s, t, op)
    case RdLock => Set(s, t, x.(pc := RdInc, mutex := Some(t)))
    case RdInc => Set(s, t, x.(pc := Idle, depth := x.depth + 1))
    case WrList => Goto(s, t, WrSlot(0)).(listMutex := Some(t))
    case WrSlot(i) => if i < |s.list| then Goto(SetMutex(s, s.list[i], Some(t)), t, WrSlot(i + 1)) else Goto(s, t, Idle)
    case UnSlot(i) => if i < |s.list| then Goto(SetMutex(s, s.list[i], None), t, UnSlot(i + 1)) else Goto(s, t, UnList)
    case UnList => Goto(s, t, UnWriter).(listMutex := None)
    case UnWriter => Set(s, t, x.(pc := Idle, depth := 0))
    case UnOwn => Set(s, t, x.(pc := UnDec, mutex := None))
    case UnDec => if x.depth > 0 then Set(s, t, x.(pc := Idle, depth := x.depth - 1)) else Goto(s, t, Idle)
    case ExLock => Goto(s, t, ExFree).(listMutex := Some(t))
    case ExFree =>
      if x.depth != 0 then Goto(s, t, Aborted)
      else Set(s, t, x.(pc := ExUnlock, hasSlot := false)).(list := Without(s.list, t))
    case ExUnlock => Goto(s, t, Dead).(listMutex := None)
    case _ => s
  }

  /** Thread 't' makes call 'op', or runs one step. */
  ghost predicate Moves(s: State, s': State, t: Tid) {
    && !Crashed(s) && t in s.th
    && ((s.th[t].pc == Idle && exists op :: MayCall(s.th[t], op) && s' == Call(s, t, op)) || (Runnable(s, t) && s' == Run(s, t)))
  }

  /** The nesting that 'depth' has room for: at most UINT_MAX - 1 read locks. */
  predicate MayCall(x: Thread, op: Op) {
    op == Rd || op == TryRd ==> x.depth + 1 != UINT_MAX
  }

  ghost predicate Step(s: State, s': State) {
    exists t :: Moves(s, s', t)
  }

  /** Any set of threads, none of which has a slot. */
  ghost predicate Init(s: State) {
    s.list == [] && s.listMutex == None && forall t :: t in s.th ==> s.th[t] == Thread(Idle, false, 0, None)
  }

  // ----- critical sections

  /** From the return of a read lock to the start of the unlock that ends it. */
  predicate InRead(x: Thread) {
    x.hasSlot && 1 <= x.depth < UINT_MAX && !(x.depth == 1 && (x.pc == UnOwn || x.pc == UnDec))
  }

  predicate InWrite(x: Thread) {
    x.hasSlot && x.depth == UINT_MAX && (x.pc == Idle || x.pc.Switch?)
  }

  // ----- the invariant

  /** The thread holds its own slot's mutex as a reader. */
  predicate HoldsOwn(x: Thread) {
    (1 <= x.depth < UINT_MAX && !(x.depth == 1 && x.pc == UnDec)) || x.pc == RdInc
  }

  predicate HoldsList(x: Thread) {
    x.pc.Push? || x.pc.Pushed? || x.pc.WrSlot? || x.pc.UnSlot? || x.pc == UnList || x.pc == ExFree || x.pc == ExUnlock || InWrite(x)
  }

  /** The thread holds, as a writer, the mutex of the slot in place 'k' of the list. */
  predicate HoldsSlot(x: Thread, k: nat) {
    (x.pc.WrSlot? && k < x.pc.next) || (x.pc.UnSlot? && k >= x.pc.next) || InWrite(x)
  }

  /** What a thread's program counter says about its slot. */
  predicate PcOk(x: Thread, n: nat) {
    && x.depth <= UINT_MAX
    && (!x.hasSlot ==> x.depth == 0 && x.mutex == None)
    && match x.pc
       case Idle => true
       case Create(op) => !x.hasSlot && op != Exit
       case Push(op) => !x.hasSlot && op != Exit
       case Pushed(op) => x.hasSlot && x.depth == 0 && op != Exit
       case Switch(op) => x.hasSlot && op != Exit && MayCall(x, op)
       case RdLock => x.hasSlot && x.depth == 0
       case RdInc => x.hasSlot && x.depth + 1 < UINT_MAX
       case WrList => x.hasSlot && x.depth == UINT_MAX
       case WrSlot(i) => x.hasSlot && x.depth == UINT_MAX && i <= n
       case UnSlot(i) => x.hasSlot && x.depth == UINT_MAX && i <= n
       case UnList => x.hasSlot && x.depth == UINT_MAX
       case UnWriter => x.hasSlot && x.depth == UINT_MAX
       case UnOwn => x.hasSlot && x.depth == 1
       case UnDec => x.hasSlot && 1 <= x.depth < UINT_MAX
       case ExLock => x.hasSlot && x.depth < UINT_MAX
       case ExFree => x.hasSlot && x.depth < UINT_MAX
       case ExUnlock => !x.hasSlot
       case Dead => !x.hasSlot
       case Aborted => true
  }

  /** The list holds each slot once. */
  predicate ListOk(s: State) {
    && (forall i, j :: 0 <= i < j < |s.list| ==> s.list[i] != s.list[j])
    && (forall t :: t in s.list ==> t in s.th && s.th[t].hasSlot)
    && (forall t :: t in s.th && s.th[t].hasSlot ==> t in s.list)
  }

  /** The list's mutex is held by exactly the thread that thinks so. */
  predicate ListMutexOk(s: State) {
    && (forall t :: t in s.th && HoldsList(s.th[t]) ==> s.listMutex == Some(t))
    && (s.listMutex.Some? ==> s.listMutex.value in s.th && HoldsList(s.th[s.listMutex.value]))
  }

  /** So are the slots' mutexes: by their own threads as readers, or by a writer. */
  ghost predicate SlotsOk(s: State) {
    && (forall t :: t in s.th && HoldsOwn(s.th[t]) ==> s.th[t].mutex == Some(t))
    && (forall t, k :: t in s.th && 0 <= k < |s.list| && HoldsSlot(s.th[t], k) ==> s.list[k] in s.th && s.th[s.list[k]].mutex == Some(t))
    && (forall k :: 0 <= k < |s.list| && s.list[k] in s.th && s.th[s.list[k]].mutex.Some? ==>
          var u := s.th[s.list[k]].mutex.value;
          u in s.th && ((u == s.list[k] && HoldsOwn(s.th[u])) || HoldsSlot(s.th[u], k)))
  }

  ghost predicate Inv(s: State) {
    && (forall t :: t in s.th ==> PcOk(s.th[t], |s.list|))
    && ListOk(s) && ListMutexOk(s) && SlotsOk(s)
  }

  /** Readers and writers exclude each other. */
  ghost predicate Exclusive(s: State) {
    forall t, u :: t in s.th && u in s.th && t != u && InWrite(s.th[t]) ==> !InRead(s.th[u]) && !InWrite(s.th[u])
  }

  /** A thread in the write section holds every slot's mutex. */
  lemma WriterHoldsAll(s: State, t: Tid, u: Tid)
    requires Inv(s) && t in s.th && u in s.th && InWrite(s.th[t]) && s.th[u].hasSlot
    ensures s.th[u].mutex == Some(t) && s.listMutex == Some(t)
  {
    hide PcOk;
    var k :| 0 <= k < |s.list| && s.list[k] == u;
    assert HoldsSlot(s.th[t], k) && HoldsList(s.th[t]);
  }

  lemma InvExcludes(s: State)
    requires Inv(s)
    ensures Exclusive(s)
  {
    hide Inv;
    forall t, u | t in s.th && u in s.th && t != u && InWrite(s.th[t]) ensures !InRead(s.th[u]) && !InWrite(s.th[u]) {
      PcOf(s, u);
      if s.th[u].hasSlot { WriterHoldsAll(s, t, u); }
    }
  }

  lemma InitInv(s: State)
    requires Init(s)
    ensures Inv(s)
  {
  }

  // ----- every step keeps the invariant

  /** Thread 't' turns into 'x', taking or releasing the mutexes that this says. */
  ghost predicate Local(s: State, t: Tid, x: Thread, listMutex: Option<Tid>) {
    && t in s.th && PcOk(x, |s.list|) && x.hasSlot == s.th[t].hasSlot
    && listMutex == (if HoldsList(x) then Some(t) else if HoldsList(s.th[t]) then None else s.listMutex)
    && (HoldsList(x) && !HoldsList(s.th[t]) ==> s.listMutex == None)
    && x.mutex == (if HoldsOwn(x) then Some(t) else if HoldsOwn(s.th[t]) then None else s.th[t].mutex)
    && (HoldsOwn(x) && !HoldsOwn(s.th[t]) ==> s.th[t].mutex == None)
    && forall k :: 0 <= k < |s.list| ==> HoldsSlot(x, k) == HoldsSlot(s.th[t], k)
  }

  lemma LocalInv(s: State, t: Tid, x: Thread, listMutex: Option<Tid>)
    requires Inv(s) && Local(s, t, x, listMutex)
    ensures Inv(State(s.list, listMutex, s.th[t := x]))
  {
    hide PcOk, HoldsOwn, HoldsList, HoldsSlot;
    var s' := State(s.list, listMutex, s.th[t := x]);
    forall k | 0 <= k < |s.list| && s'.th[s.list[k]].mutex.Some?
      ensures var u := s'.th[s.list[k]].mutex.value;
              u in s'.th && ((u == s.list[k] && HoldsOwn(s'.th[u])) || HoldsSlot(s'.th[u], k))
    {
      if s.list[k] != t || !HoldsOwn(x) { assert s.th[s.list[k]].mutex == s'.th[s.list[k]].mutex; }
    }
    forall u, k | u in s'.th && 0 <= k < |s.list| && HoldsSlot(s'.th[u], k) ensures s'.th[s.list[k]].mutex == Some(u) {
      assert HoldsSlot(s.th[u], k);
      ReaderOrWriter(s.th[u], |s.list|, k);
    }
  }

  lemma ReaderOrWriter(x: Thread, n: nat, k: nat)
    requires PcOk(x, n)
    ensures !(HoldsOwn(x) && HoldsSlot(x, k))
  {
  }

  lemma CallInv(s: State, t: Tid, op: Op)
    requires Inv(s) && t in s.th && s.th[t].pc == Idle && MayCall(s.th[t], op)
    ensures Call(s, t, op).th[t].pc != Aborted ==> Inv(Call(s, t, op))
  {
    hide Inv;
    var s' := Call(s, t, op);
    PcOf(s, t);
    if s'.th[t].pc != Aborted { LocalInv(s, t, s'.th[t], s'.listMutex); }
  }

  lemma PcOf(s: State, t: Tid)
    requires Inv(s) && t in s.th
    ensures PcOk(s.th[t], |s.list|)
    ensures HoldsList(s.th[t]) ==> s.listMutex == Some(t)
    ensures HoldsOwn(s.th[t]) ==> s.th[t].mutex == Some(t)
  {
  }

  lemma RunInv(s: State, t: Tid)
    requires Inv(s) && t in s.th && Runnable(s, t)
    requires !s.th[t].pc.WrSlot? && !s.th[t].pc.UnSlot? && !s.th[t].pc.ExFree? && !s.th[t].pc.Push?
    ensures Run(s, t).th[t].pc != Aborted ==> Inv(Run(s, t))
  {
    hide Inv;
    var s' := Run(s, t);
    PcOf(s, t);
    if s'.th[t].pc != Aborted { LocalInv(s, t, s'.th[t], s'.listMutex); }
  }

  /** Only the mutex field of a slot changes when someone else takes or releases it. */
  lemma MutexElsewhere(x: Thread, m: Option<Tid>, n: nat)
    requires x.hasSlot && PcOk(x, n)
    ensures var y := x.(mutex := m); PcOk(y, n) && HoldsOwn(y) == HoldsOwn(x) && HoldsList(y) == HoldsList(x)
    ensures forall k :: HoldsSlot(x.(mutex := m), k) == HoldsSlot(x, k)
  {
  }

  /** A writer 't', from now on at 'pc', takes or releases the mutex of the slot in place 'i'. */
  ghost predicate SlotChange(s: State, t: Tid, i: nat, owner: Option<Tid>, pc: Pc) {
    && t in s.th && i < |s.list| && s.list[i] in s.th && s.th[t].hasSlot
    && (owner.Some? ==> s.th[s.list[i]].mutex == None)
    && var x := s.th[t].(pc := pc);
       && PcOk(x, |s.list|) && HoldsList(x) && HoldsList(s.th[t]) && !HoldsOwn(x) && !HoldsOwn(s.th[t])
       && (forall k :: 0 <= k < |s.list| && k != i ==> HoldsSlot(x, k) == HoldsSlot(s.th[t], k))
       && owner == (if HoldsSlot(x, i) then Some(t) else None)
       && HoldsSlot(x, i) != HoldsSlot(s.th[t], i)
  }

  lemma SlotInv(s: State, t: Tid, i: nat, owner: Option<Tid>, pc: Pc)
    requires Inv(s) && SlotChange(s, t, i, owner, pc)
    ensures Inv(Goto(SetMutex(s, s.list[i], owner), t, pc))
  {
    hide PcOk, HoldsOwn, HoldsList, HoldsSlot;
    var s' := Goto(SetMutex(s, s.list[i], owner), t, pc);
    forall u | u in s.th
      ensures s'.th[u].hasSlot == s.th[u].hasSlot && PcOk(s'.th[u], |s.list|)
      ensures HoldsOwn(s'.th[u]) == HoldsOwn(s.th[u]) && HoldsList(s'.th[u]) == HoldsList(s.th[u])
      ensures s'.th[u].mutex == if u == s.list[i] then owner else s.th[u].mutex
      ensures forall k :: 0 <= k < |s.list| && (k != i || u != t) ==> HoldsSlot(s'.th[u], k) == HoldsSlot(s.th[u], k)
      ensures u == t ==> HoldsSlot(s'.th[t], i) == owner.Some?
    {
      if u == t { MutexElsewhere(s.th[t].(pc := pc), s'.th[t].mutex, |s.list|); } else if u == s.list[i] { MutexElsewhere(s.th[u], owner, |s.list|); }
    }
    SlotMutexes(s, s', t, i, owner);
  }

  lemma SlotMutexes(s: State, s': State, t: Tid, i: nat, owner: Option<Tid>)
    requires Inv(s) && s'.th.Keys == s.th.Keys && s'.list == s.list && t in s.th && SlotChange(s, t, i, owner, s'.th[t].pc)
    requires forall u :: u in s.th ==>
               && HoldsOwn(s'.th[u]) == HoldsOwn(s.th[u])
               && s'.th[u].mutex == (if u == s.list[i] then owner else s.th[u].mutex)
    requires forall u, k :: u in s.th && 0 <= k < |s.list| && (k != i || u != t) ==> HoldsSlot(s'.th[u], k) == HoldsSlot(s.th[u], k)
    requires HoldsSlot(s'.th[t], i) == owner.Some?
    ensures SlotsOk(s')
  {
    hide PcOk, HoldsOwn, HoldsList, HoldsSlot;
    forall u | u in s.th && HoldsOwn(s.th[u]) ensures s'.th[u].mutex == Some(u) {
      assert s.th[u].mutex == Some(u);
    }
  }

  /** The loops over the slots in `fat_rwlock_wrlock` and `fat_rwlock_unlock`. */
  lemma SlotLoopInv(s: State, t: Tid)
    requires Inv(s) && t in s.th && Runnable(s, t) && (s.th[t].pc.WrSlot? || s.th[t].pc.UnSlot?)
    ensures Inv(Run(s, t))
  {
    hide Inv;
    var i, s' := s.th[t].pc.next, Run(s, t);
    PcOf(s, t);
    if i < |s.list| {
      SlotOf(s, i);
      SlotInv(s, t, i, s'.th[s.list[i]].mutex, s'.th[t].pc);
    } else {
      LocalInv(s, t, s'.th[t], s'.listMutex);
    }
  }

  lemma SlotOf(s: State, i: nat)
    requires Inv(s) && i < |s.list|
    ensures s.list[i] in s.th && s.th[s.list[i]].hasSlot
  {
  }

  lemma {:induction false} WithoutDistinct(l: seq<Tid>, t: Tid)
    requires forall i, j :: 0 <= i < j < |l| ==> l[i] != l[j]
    ensures forall i, j :: 0 <= i < j < |Without(l, t)| ==> Without(l, t)[i] != Without(l, t)[j]
  {
    if l != [] {
      WithoutDistinct(l[1..], t);
      assert l[0] !in l[1..];
    }
  }

  /** The thread is changing the list, so that no slot's mutex is held by a writer. */
  predicate Relinks(x: Thread) {
    x.pc.Push? || x.pc == ExFree
  }

  lemma NoWriter(s: State, t: Tid, u: Tid)
    requires Inv(s) && t in s.th && Relinks(s.th[t]) && u in s.th
    ensures (forall k :: !HoldsSlot(s.th[u], k)) && (HoldsList(s.th[u]) ==> u == t) && forall n :: PcOk(s.th[u], n)
    ensures s.th[u].mutex.Some? ==> s.th[u].mutex.value == u && HoldsOwn(s.th[u])
  {
    assert HoldsList(s.th[t]);
    forall v, k | v in s.th && HoldsSlot(s.th[v], k) ensures HoldsList(s.th[v]) {}
    assert PcOk(s.th[u], |s.list|);
    if s.th[u].mutex.Some? {
      assert u in s.list;
      var k :| 0 <= k < |s.list| && s.list[k] == u;
    }
  }

  /** The holder of the list's mutex puts its slot into the list or takes it out. */
  lemma RelinkInv(s: State, s': State, t: Tid)
    requires Inv(s) && t in s.th && Relinks(s.th[t]) && HoldsList(s.th[t]) && s'.listMutex == s.listMutex && t in s'.th && s'.th == s.th[t := s'.th[t]]
    requires PcOk(s'.th[t], |s'.list|) && HoldsList(s'.th[t]) && !HoldsOwn(s'.th[t]) && s'.th[t].mutex == None
    requires forall k :: !HoldsSlot(s'.th[t], k)
    requires forall i, j :: 0 <= i < j < |s'.list| ==> s'.list[i] != s'.list[j]
    requires forall u :: u in s'.list <==> if u == t then s'.th[t].hasSlot else u in s.list
    ensures Inv(s')
  {
    hide PcOk, HoldsOwn, HoldsList, HoldsSlot, Relinks;
    forall u | u in s.th
      ensures (forall k :: !HoldsSlot(s.th[u], k)) && (HoldsList(s.th[u]) ==> u == t) && forall n :: PcOk(s.th[u], n)
      ensures s.th[u].mutex.Some? ==> s.th[u].mutex.value == u && HoldsOwn(s.th[u])
    {
      NoWriter(s, t, u);
    }
  }

  /** The end of `fat_rwlock_get_slot__`: a new slot joins the list. */
  lemma PushInv(s: State, t: Tid)
    requires Inv(s) && t in s.th && s.th[t].pc.Push?
    ensures Inv(Run(s, t))
  {
    hide SlotsOk, ListMutexOk;
    PcOf(s, t);
    RelinkInv(s, Run(s, t), t);
  }

  /** `slot_destructor`: a slot leaves the list. */
  lemma FreeInv(s: State, t: Tid)
    requires Inv(s) && t in s.th && s.th[t].pc == ExFree && s.th[t].depth == 0
    ensures Inv(Run(s, t))
  {
    hide SlotsOk, ListMutexOk;
    NoWriter(s, t, t);
    WithoutDistinct(s.list, t);
    RelinkInv(s, Run(s, t), t);
  }

  lemma RunKeepsInv(s: State, t: Tid)
    requires Inv(s) && t in s.th && Runnable(s, t)
    ensures Run(s, t).th[t].pc != Aborted ==> Inv(Run(s, t))
  {
    hide Inv;
    var pc := s.th[t].pc;
    if pc.WrSlot? || pc.UnSlot? {
      SlotLoopInv(s, t);
    } else if pc.Push? {
      PushInv(s, t);
    } else if pc == ExFree {
      if s.th[t].depth == 0 { FreeInv(s, t); }
    } else {
      RunInv(s, t);
    }
  }

  lemma AbortExcludes(s: State, t: Tid)
    requires Inv(s) && t in s.th && s.th[t].pc != UnOwn && s.th[t].pc != UnDec
    ensures Exclusive(Goto(s, t, Aborted))
  {
    hide Inv;
    InvExcludes(s);
  }

  /** A step that aborts changes nothing but the program counter. */
  lemma AbortOnly(s: State, t: Tid)
    requires Inv(s) && t in s.th && Runnable(s, t) && Run(s, t).th[t].pc == Aborted
    ensures Run(s, t) == Goto(s, t, Aborted) && s.th[t].pc != UnOwn && s.th[t].pc != UnDec
  {
    hide Inv;
    PcOf(s, t);
  }

  /** Every step keeps the invariant, or aborts without breaking the exclusion. */
  lemma MovesKeep(s: State, s': State, t: Tid)
    requires Inv(s) && Moves(s, s', t)
    ensures Inv(s') || Crashed(s')
    ensures Exclusive(s')
  {
    hide Inv, Exclusive, Run, Call;
    if s.th[t].pc == Idle {
      var op :| MayCall(s.th[t], op) && s' == Call(s, t, op);
      CallInv(s, t, op);
      if s'.th[t].pc == Aborted { CallAborts(s, t, op); }
    } else {
      RunKeepsInv(s, t);
      if s'.th[t].pc == Aborted { AbortOnly(s, t); }
    }
    if s'.th[t].pc == Aborted { AbortExcludes(s, t); } else { InvExcludes(s'); }
  }

  lemma CallAborts(s: State, t: Tid, op: Op)
    requires t in s.th && Call(s, t, op).th[t].pc == Aborted
    ensures Call(s, t, op) == Goto(s, t, Aborted)
  {
  }

  // ----- whole runs

  ghost predicate IsRun(run: seq<State>) {
    && run != [] && Init(run[0])
    && forall i :: 0 <= i < |run| - 1 ==> Step(run[i], run[i + 1])
  }

  lemma {:induction false} RunInvariant(run: seq<State>, k: nat)
    requires IsRun(run) && k < |run|
    ensures Inv(run[k]) || Crashed(run[k])
    ensures Exclusive(run[k])
  {
    hide Inv, Exclusive, Init;
    if k == 0 {
      InitInv(run[0]);
      InvExcludes(run[0]);
    } else {
      RunInvariant(run, k - 1);
      assert Step(run[k - 1], run[k - 1 + 1]);
      var t :| Moves(run[k - 1], run[k], t);
      MovesKeep(run[k - 1], run[k], t);
    }
  }

  /**
   Exclusion: in every state of every run of any number of threads, a thread in the write
   section is the only thread in a read or write section.
   */
  lemma RunsExclude(run: seq<State>, k: nat, t: Tid, u: Tid)
    requires IsRun(run) && k < |run| && t in run[k].th && u in run[k].th && t != u && InWrite(run[k].th[t])
    ensures !InRead(run[k].th[u]) && !InWrite(run[k].th[u])
  {
    RunInvariant(run, k);
  }

  /** When nobody holds the list's mutex, nobody waits for any mutex. */
  lemma BlockedMeans(s: State, t: Tid)
    requires Inv(s) && t in s.th && Blocked(s, t)
    ensures s.listMutex.Some?
  {
    PcOf(s, t);
    if s.th[t].pc == RdLock {
      var k :| 0 <= k < |s.list| && s.list[k] == t;
      var u := s.th[t].mutex.value;
      assert HoldsSlot(s.th[u], k) && HoldsList(s.th[u]);
    }
  }

  // ----- what a writer takes and releases

  /** From the first slot that `fat_rwlock_wrlock` locks to the last that the unlock releases. */
  predicate WriterSpan(x: Thread) {
    x.pc.WrSlot? || x.pc.UnSlot? || InWrite(x)
  }

  lemma OnlyRelinks(s: State, s': State, u: Tid)
    requires Moves(s, s', u)
    ensures s'.list == s.list || Relinks(s.th[u])
  {
  }

  /** Nobody else can touch the list while a writer holds its mutex. */
  lemma ListStays(s: State, s': State, t: Tid)
    requires Inv(s) && Step(s, s') && t in s.th && WriterSpan(s.th[t])
    ensures s'.list == s.list && t in s'.th
  {
    hide Run, Call, SlotsOk, PcOk;
    var u :| Moves(s, s', u);
    OnlyRelinks(s, s', u);
    assert HoldsList(s.th[t]);
  }

  lemma {:induction false} ListFrozen(run: seq<State>, a: nat, b: nat, t: Tid)
    requires IsRun(run) && a <= b < |run|
    requires forall k :: a <= k <= b ==> !Crashed(run[k]) && t in run[k].th && WriterSpan(run[k].th[t])
    ensures run[b].list == run[a].list
  {
    hide Inv, Init, Exclusive, Crashed, WriterSpan, Step;
    if a < b {
      ListFrozen(run, a, b - 1, t);
      RunInvariant(run, b - 1);
      assert Step(run[b - 1], run[b - 1 + 1]);
      ListStays(run[b - 1], run[b], t);
    }
  }

  /** The slots whose mutexes 't' holds. */
  function Held(s: State, t: Tid): set<Tid> {
    set u | u in s.th && s.th[u].hasSlot && s.th[u].mutex == Some(t)
  }

  lemma WriterHolds(s: State, t: Tid)
    requires Inv(s) && t in s.th && InWrite(s.th[t])
    ensures Held(s, t) == set u | u in s.list
  {
    hide SlotsOk, HoldsList, PcOk;
    forall u | u in s.th && s.th[u].hasSlot ensures s.th[u].mutex == Some(t) { WriterHoldsAll(s, t, u); }
  }

  /** While it unlocks, a writer holds exactly the slots that it has not come to. */
  lemma UnlockerHolds(s: State, t: Tid)
    requires Inv(s) && t in s.th && s.th[t].pc.UnSlot?
    ensures s.th[t].pc.next <= |s.list| && Held(s, t) == set u | u in s.list[s.th[t].pc.next..]
  {
    hide PcOk, ListMutexOk, HoldsList, HoldsOwn;
    var n := s.th[t].pc.next;
    UnlockerPlace(s, t);
    forall u | u in s.th && s.th[u].hasSlot ensures s.th[u].mutex == Some(t) <==> u in s.list[n..] {
      var k :| 0 <= k < |s.list| && s.list[k] == u;
      InTail(s.list, n, k);
      assert HoldsSlot(s.th[t], k) <==> k >= n;
    }
  }

  lemma UnlockerPlace(s: State, t: Tid)
    requires Inv(s) && t in s.th && s.th[t].pc.UnSlot?
    ensures s.th[t].pc.next <= |s.list| && !HoldsOwn(s.th[t])
  {
    PcOf(s, t);
  }

  lemma InTail(l: seq<Tid>, n: nat, k: nat)
    requires n <= |l| && k < |l| && forall i, j :: 0 <= i < j < |l| ==> l[i] != l[j]
    ensures l[k] in l[n..] <==> k >= n
  {
    if l[k] in l[n..] {
      var j :| 0 <= j < |l[n..]| && l[n..][j] == l[k];
      assert l[n + j] == l[k];
    }
    if k >= n { assert l[n..][k - n] == l[k]; }
  }

  /**
   A writer's unlock releases exactly the mutexes that its lock took: the slots it holds
   when it starts to unlock are those of the frozen list, and none is left at the end.
   */
  lemma UnlockReleasesAll(run: seq<State>, a: nat, b: nat, t: Tid)
    requires IsRun(run) && a <= b < |run|
    requires forall k :: a <= k <= b ==> !Crashed(run[k]) && t in run[k].th && WriterSpan(run[k].th[t])
    requires InWrite(run[a].th[t]) && run[b].th[t].pc.UnSlot?
    ensures run[b].list == run[a].list
    ensures Held(run[a], t) == set u | u in run[a].list
    ensures run[b].th[t].pc.next <= |run[a].list| && Held(run[b], t) == set u | u in run[a].list[run[b].th[t].pc.next..]
  {
    hide Inv, Held;
    RunInvariant(run, a);
    RunInvariant(run, b);
    ListFrozen(run, a, b, t);
    WriterHolds(run[a], t);
    UnlockerHolds(run[b], t);
  }
}
