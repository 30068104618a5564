/**
 fork, exit, wait and kill of kernel/proc.c as interleaved steps.  A step is what
 a process does between two points where another one may run: it takes or drops
 wait_lock, or looks at one slot of the process table under that slot's p->lock.
 */
module WaitExit {

  datatype Status = Unused | Used | Runnable | Sleeping | Zombie

  /** Where a process is in these functions. */
  datatype Pc =
    | Elsewhere                          // anywhere else in the kernel or in user code
    | ForkWant(c: nat) | ForkHold(c: nat) | ForkReady(c: nat)
    | ExitWant
    | ExitReparent(i: nat)               // reparent(), at slot i
    | ExitWakeInit(i: nat, j: nat)       // wakeup(initproc) for the child in slot i, at slot j
    | ExitWakeParent(j: nat)             // wakeup(p->parent), at slot j
    | ExitMark | ExitRelease | Dead
    | WaitWant
    | WaitScan(i: nat, kids: bool)       // the loop over the table, at slot i
    | WaitDecide(kids: bool)
    | WaitLock | WaitHold | WaitDoze     // sleep(): before p->lock, with both locks, with p->lock only
    | WaitAsleep                         // switched away in sched()

  datatype Opt = None | Some(v: nat)

  /** A slot of proc[]; forker is the process whose fork() is filling a USED slot. */
  datatype Proc = Proc(st: Status, chan: Opt, parent: Opt, pid: nat, killed: bool, pc: Pc, forker: nat)

  /** givenUp holds the pids that allocproc() took for a fork that then failed. */
  datatype State = State(procs: seq<Proc>, init: nat, lock: Opt, nextpid: nat, reaped: seq<nat>, givenUp: seq<nat>)

  /** One step: a process calls fork, which gets slot c or fails after taking it, exit or wait,
      some process calls kill on q, or process a goes on from where it is; copied is what
      copyout in wait returns. */
  datatype Step = Fork(a: nat, c: nat) | ForkFails(a: nat, c: nat) | Exit(a: nat) | Wait(a: nat) | Kill(q: nat) | Go(a: nat, copied: bool)

  /** p->lock of slot q is free: its owner is not between acquire and sched. */
  predicate Free(s: State, q: nat)
    requires q < |s.procs|
  {
    var pc := s.procs[q].pc;
    pc != WaitHold && pc != WaitDoze && pc != ExitRelease
  }

  function Put(s: State, p: nat, q: Proc): State
    requires p < |s.procs|
  {
    s.(procs := s.procs[p := q])
  }

  function Goto(s: State, p: nat, pc: Pc): State
    requires p < |s.procs|
  {
    Put(s, p, s.procs[p].(pc := pc))
  }

  /** wakeup(chan) at slot j; the caller goes on to pc. */
  function Wake(s: State, a: nat, j: nat, chan: Opt, pc: Pc): State
    requires a < |s.procs| && j < |s.procs|
  {
    if s.procs[j].st == Sleeping && s.procs[j].chan == chan
    then Goto(Put(s, j, s.procs[j].(st := Runnable)), a, pc)
    else Goto(s, a, pc)
  }

  /** freeproc */
  const EMPTY := Proc(Unused, None, None, 0, false, Elsewhere, 0)

  // ------------------------------------------------- the steps

  /** The process runs the code of its program point. */
  predicate At(s: State, a: nat, pc: Pc) {
    a < |s.procs| && (s.procs[a].st == Runnable || s.procs[a].st == Zombie) && s.procs[a].pc == pc
  }

  /** allocproc() */
  function ForkAlloc(s: State, a: nat, c: nat): State
    requires At(s, a, Elsewhere) && c < |s.procs| && s.procs[c].st == Unused
  {
    Goto(Put(s, c, Proc(Used, None, None, s.nextpid, s.procs[c].killed, Elsewhere, a)), a, ForkWant(c))
    .(nextpid := s.nextpid + 1)
  }

  /** fork() without memory: the slot and its pid are taken and the slot freed again, all
      while its p->lock is held. */
  function ForkFail(s: State, a: nat, c: nat): State
    requires At(s, a, Elsewhere) && c < |s.procs| && s.procs[c].st == Unused
  {
    Put(s, c, EMPTY).(nextpid := s.nextpid + 1, givenUp := s.givenUp + [s.nextpid])
  }

  /** acquire(&wait_lock) */
  function Lock(s: State, a: nat, pc: Pc): State
    requires a < |s.procs|
  {
    Goto(s, a, pc).(lock := Some(a))
  }

  /** release(&wait_lock) */
  function Unlock(s: State, a: nat, pc: Pc): State
    requires a < |s.procs|
  {
    Goto(s, a, pc).(lock := None)
  }

  /** fork() stores the parent pointer. */
  function ForkParent(s: State, a: nat, c: nat): State
    requires At(s, a, ForkHold(c)) && c < |s.procs|
  {
    Unlock(Put(s, c, s.procs[c].(parent := Some(a))), a, ForkReady(c))
  }

  /** fork() makes the child runnable. */
  function ForkRun(s: State, a: nat, c: nat): State
    requires At(s, a, ForkReady(c)) && c < |s.procs|
  {
    Goto(Put(s, c, s.procs[c].(st := Runnable)), a, Elsewhere)
  }

  /** reparent() at slot i. */
  function Reparent(s: State, a: nat, i: nat): State
    requires At(s, a, ExitReparent(i))
  {
    if i >= |s.procs| then Goto(s, a, ExitWakeParent(0))
    else if s.procs[i].parent == Some(a) then Adopt(s, a, i)
    else Goto(s, a, ExitReparent(i + 1))
  }

  function Adopt(s: State, a: nat, i: nat): State
    requires a < |s.procs| && i < |s.procs|
  {
    Goto(Put(s, i, s.procs[i].(parent := Some(s.init))), a, ExitWakeInit(i, 0))
  }

  /** wakeup(initproc) at slot j; blocked while the slot's lock is taken. */
  function WakeInit(s: State, a: nat, i: nat, j: nat): State
    requires At(s, a, ExitWakeInit(i, j))
  {
    if j >= |s.procs| then Goto(s, a, ExitReparent(i + 1))
    else if j == a then Goto(s, a, ExitWakeInit(i, j + 1))
    else if !Free(s, j) then s
    else Wake(s, a, j, Some(s.init), ExitWakeInit(i, j + 1))
  }

  /** wakeup(p->parent) at slot j. */
  function WakeParent(s: State, a: nat, j: nat): State
    requires At(s, a, ExitWakeParent(j))
  {
    if j >= |s.procs| then Goto(s, a, ExitMark)
    else if j == a then Goto(s, a, ExitWakeParent(j + 1))
    else if !Free(s, j) then s
    else Wake(s, a, j, s.procs[a].parent, ExitWakeParent(j + 1))
  }

  function BecomeZombie(s: State, a: nat): State
    requires At(s, a, ExitMark)
  {
    Put(s, a, s.procs[a].(st := Zombie, pc := ExitRelease))
  }

  /** wait() at slot i; a zombie child is freed unless its status cannot be copied out. */
  function Scan(s: State, a: nat, i: nat, kids: bool, copied: bool): State
    requires At(s, a, WaitScan(i, kids))
  {
    if i >= |s.procs| then Goto(s, a, WaitDecide(kids))
    else if s.procs[i].parent != Some(a) then Goto(s, a, WaitScan(i + 1, kids))
    else if !Free(s, i) then s
    else if s.procs[i].st != Zombie then Goto(s, a, WaitScan(i + 1, true))
    else if !copied then Unlock(s, a, Elsewhere)
    else Reap(s, a, i)
  }

  function Reap(s: State, a: nat, i: nat): State
    requires a < |s.procs| && i < |s.procs|
  {
    Unlock(Put(s, i, EMPTY), a, Elsewhere).(reaped := s.reaped + [s.procs[i].pid])
  }

  function Decide(s: State, a: nat, kids: bool): State
    requires At(s, a, WaitDecide(kids))
  {
    if !kids || s.procs[a].killed then Unlock(s, a, Elsewhere) else Goto(s, a, WaitLock)
  }

  /** sleep() marks the process and switches away. */
  function Switch(s: State, a: nat): State
    requires At(s, a, WaitDoze)
  {
    Put(s, a, s.procs[a].(st := Sleeping, chan := Some(a), pc := WaitAsleep))
  }

  /** sleep() goes on after the process was scheduled again. */
  function Resume(s: State, a: nat): State
    requires At(s, a, WaitAsleep)
  {
    Put(s, a, s.procs[a].(chan := None, pc := WaitWant))
  }

  /** kill() at the slot that has the pid. */
  function KillSlot(s: State, q: nat): State
    requires q < |s.procs| && Free(s, q)
  {
    Put(s, q, s.procs[q].(killed := true, st := if s.procs[q].st == Sleeping then Runnable else s.procs[q].st))
  }

  /** What process a does next in exit() or wait(). */
  function Advance(s: State, a: nat, copied: bool): State {
    if a >= |s.procs| || !At(s, a, s.procs[a].pc) then s else
    match s.procs[a].pc
    case ForkWant(c) => if s.lock == None then Lock(s, a, ForkHold(c)) else s
    case ForkHold(c) => if c < |s.procs| then ForkParent(s, a, c) else s
    case ForkReady(c) => if c < |s.procs| then ForkRun(s, a, c) else s
    case ExitWant => if s.lock == None then Lock(s, a, ExitReparent(0)) else s
    case ExitReparent(i) => Reparent(s, a, i)
    case ExitWakeInit(i, j) => WakeInit(s, a, i, j)
    case ExitWakeParent(j) => WakeParent(s, a, j)
    case ExitMark => BecomeZombie(s, a)
    case ExitRelease => Unlock(s, a, Dead)
    case WaitWant => if s.lock == None then Lock(s, a, WaitScan(0, false)) else s
    case WaitScan(i, kids) => Scan(s, a, i, kids, copied)
    case WaitDecide(kids) => Decide(s, a, kids)
    case WaitLock => Goto(s, a, WaitHold)
    case WaitHold => Unlock(s, a, WaitDoze)
    case WaitDoze => Switch(s, a)
    case WaitAsleep => Resume(s, a)
    case Elsewhere => s
    case Dead => s
  }

  function Next(s: State, step: Step): State {
    match step
    case Fork(a, c) =>
      if At(s, a, Elsewhere) && c < |s.procs| && s.procs[c].st == Unused then ForkAlloc(s, a, c) else s
    case ForkFails(a, c) =>
      if At(s, a, Elsewhere) && c < |s.procs| && s.procs[c].st == Unused then ForkFail(s, a, c) else s
    case Exit(a) => if At(s, a, Elsewhere) && a != s.init then Goto(s, a, ExitWant) else s
    case Wait(a) => if At(s, a, Elsewhere) then Goto(s, a, WaitWant) else s
    case Kill(q) => if q < |s.procs| && Free(s, q) then KillSlot(s, q) else s
    case Go(a, copied) => Advance(s, a, copied)
  }

  function Run(s: State, steps: seq<Step>): State {
    if steps == [] then s else Next(Run(s, steps[..|steps| - 1]), steps[|steps| - 1])
  }

  // ------------------------------------------------- invariant

  /** These program points hold wait_lock. */
  predicate Holds(pc: Pc) {
    pc.ForkHold? || pc.ExitReparent? || pc.ExitWakeInit? || pc.ExitWakeParent? || pc.ExitMark? || pc.ExitRelease?
    || pc.WaitScan? || pc.WaitDecide? || pc.WaitLock? || pc.WaitHold?
  }

  predicate InFork(pc: Pc) {
    pc.ForkWant? || pc.ForkHold? || pc.ForkReady?
  }

  predicate InExit(pc: Pc) {
    pc.ExitWant? || pc.ExitReparent? || pc.ExitWakeInit? || pc.ExitWakeParent? || pc.ExitMark? || pc.ExitRelease?
  }

  /** Asleep in wait(), or past the point where sleep() has dropped wait_lock. */
  predicate Dozing(p: Proc) {
    p.pc == WaitDoze || (p.pc == WaitAsleep && p.st == Sleeping)
  }

  predicate Living(p: Proc) {
    p.st == Runnable || p.st == Sleeping
  }

  /** An exiting process is about to wake init and has not yet come to its slot. */
  predicate WakeupPending(s: State, q: nat) {
    s.lock.Some? && s.lock.v < |s.procs| && q == s.init
    && s.procs[s.lock.v].pc.ExitWakeInit? && s.procs[s.lock.v].pc.j <= q
  }

  /** A slot that process p is filling; linked once p has stored the parent pointer. */
  predicate Filling(c: Proc, p: nat, linked: bool) {
    c.st == Used && c.forker == p && c.parent == if linked then Some(p) else None
  }

  ghost predicate LocalOk(s: State, p: nat) {
    p < |s.procs| ==>
      var x := s.procs[p];
      && (Holds(x.pc) <==> s.lock == Some(p))
      && (x.st == Zombie <==> x.pc == ExitRelease || x.pc == Dead)
      && (x.st == Sleeping ==> x.pc == WaitAsleep)
      && (x.st == Unused || x.st == Used ==> x.pc == Elsewhere)
      && (x.st == Unused ==> x.parent == None)
      && (x.pc == WaitAsleep ==> x.chan == Some(p))
      && (x.st == Used ==> x.forker < |s.procs| && InFork(s.procs[x.forker].pc) && s.procs[x.forker].pc.c == p)
      && (p != s.init && (Living(x) || x.st == Zombie) ==> x.parent.Some?)
      && (p == s.init ==> x.parent == None && Living(x) && !InExit(x.pc))
      && (InFork(x.pc) ==> x.pc.c < |s.procs| && Filling(s.procs[x.pc.c], p, x.pc.ForkReady?))
      && (x.parent.Some? ==> x.parent.v < |s.procs|)
  }

  /** What holds of q when the process in slot c is its child. */
  ghost predicate PairOk(s: State, q: nat, c: nat) {
    q < |s.procs| && c < |s.procs| && s.procs[c].parent == Some(q) ==>
      var x := s.procs[q];
      && Living(x) && q != c
      && (x.pc.ExitReparent? ==> c >= x.pc.i)
      && (x.pc.ExitWakeInit? ==> c > x.pc.i)
      && !x.pc.ExitWakeParent? && !x.pc.ExitMark?
      && (x.pc.WaitScan? && !x.pc.kids ==> c >= x.pc.i)
      && (x.pc.WaitDecide? ==> x.pc.kids)
      && (s.procs[c].st == Zombie ==>
            && (x.pc.WaitScan? ==> c >= x.pc.i)
            && !x.pc.WaitDecide? && !x.pc.WaitLock? && !x.pc.WaitHold?
            && (Dozing(x) ==> WakeupPending(s, q)))
  }

  /** An exiting process has woken its parent before it becomes a zombie. */
  ghost predicate ExitOk(s: State, e: nat) {
    e < |s.procs| && s.procs[e].parent.Some? && s.procs[e].parent.v < |s.procs| ==>
      var x := s.procs[e];
      && (x.pc.ExitWakeParent? && x.pc.j > x.parent.v ==> !Dozing(s.procs[x.parent.v]))
      && (x.pc == ExitMark ==> !Dozing(s.procs[x.parent.v]))
  }

  /** wait() has returned the pid or its fork failed. */
  predicate Gone(s: State, k: nat) {
    k in s.reaped || k in s.givenUp
  }

  ghost predicate PidOk(s: State, p: nat) {
    p < |s.procs| && s.procs[p].st != Unused ==> s.procs[p].pid < s.nextpid && !Gone(s, s.procs[p].pid)
  }

  ghost predicate PidsDiffer(s: State, p: nat, q: nat) {
    p < |s.procs| && q < |s.procs| && p != q && s.procs[p].st != Unused && s.procs[q].st != Unused ==>
      s.procs[p].pid != s.procs[q].pid
  }

  ghost predicate Owns(s: State, p: nat, k: nat) {
    p < |s.procs| && s.procs[p].st != Unused && s.procs[p].pid == k
  }

  /** A pid that was given out is gone or still has its slot. */
  ghost predicate Accounted(s: State, k: nat) {
    0 < k < s.nextpid ==> Gone(s, k) || exists p: nat :: Owns(s, p, k)
  }

  predicate Once(q: seq<nat>) {
    forall i, j :: 0 <= i < j < |q| ==> q[i] != q[j]
  }

  /** No pid is returned twice, given up twice, or both. */
  predicate GoneOnce(s: State) {
    && Once(s.reaped) && Once(s.givenUp)
    && (forall i :: 0 <= i < |s.reaped| ==> s.reaped[i] < s.nextpid && s.reaped[i] !in s.givenUp)
    && (forall i :: 0 <= i < |s.givenUp| ==> s.givenUp[i] < s.nextpid)
  }

  ghost predicate Inv(s: State) {
    && s.init < |s.procs|
    && (s.lock.Some? ==> s.lock.v < |s.procs|)
    && (forall p: nat :: LocalOk(s, p))
    && (forall q: nat, c: nat :: PairOk(s, q, c))
    && (forall e: nat :: ExitOk(s, e))
  }

  ghost predicate PidInv(s: State) {
    && (forall p: nat :: PidOk(s, p))
    && (forall p: nat, q: nat :: PidsDiffer(s, p, q))
    && GoneOnce(s)
    && (forall k: nat :: Accounted(s, k))
  }

  /** The machine with init alone in slot 0 of a table of n slots. */
  function Boot(n: nat): State
    requires n > 0
  {
    State([Proc(Runnable, None, None, 1, false, Elsewhere, 0)] + seq(n - 1, _ => EMPTY), 0, None, 2, [], [])
  }

  lemma BootInv(n: nat)
    requires n > 0
    ensures Inv(Boot(n)) && PidInv(Boot(n))
  {
    var s := Boot(n);
    forall p: nat ensures LocalOk(s, p) && ExitOk(s, p) && PidOk(s, p) {}
    forall q: nat, c: nat ensures PairOk(s, q, c) && PidsDiffer(s, q, c) {}
    forall k: nat ensures Accounted(s, k) { assert Owns(s, 0, 1); }
  }

  /** What the invariant says of the process that steps and of the holder of wait_lock. */
  lemma Holder(s: State, a: nat)
    requires Inv(s)
    ensures LocalOk(s, a) && ExitOk(s, a)
    ensures s.lock.Some? ==> LocalOk(s, s.lock.v)
    ensures LocalOk(s, s.init)
    ensures a < |s.procs| && InFork(s.procs[a].pc) ==> LocalOk(s, s.procs[a].pc.c)
  {
  }

  lemma ForkAllocLocal(s: State, a: nat, c: nat, p: nat)
    requires LocalOk(s, a) && LocalOk(s, c) && LocalOk(s, p) && At(s, a, Elsewhere) && c < |s.procs| && s.procs[c].st == Unused
    requires s.init < |s.procs| && LocalOk(s, s.init)
    ensures LocalOk(ForkAlloc(s, a, c), p)
  {
  }

  lemma ForkAllocPair(s: State, a: nat, c: nat, q: nat, d: nat)
    requires Inv(s) && At(s, a, Elsewhere) && c < |s.procs| && s.procs[c].st == Unused
    ensures PairOk(ForkAlloc(s, a, c), q, d)
  {
    Holder(s, a);
    assert PairOk(s, q, d) && LocalOk(s, q) && LocalOk(s, d);
  }

  lemma ForkAllocExit(s: State, a: nat, c: nat, e: nat)
    requires Inv(s) && At(s, a, Elsewhere) && c < |s.procs| && s.procs[c].st == Unused
    ensures ExitOk(ForkAlloc(s, a, c), e)
  {
    Holder(s, a);
    assert ExitOk(s, e) && LocalOk(s, e);
  }

  lemma ForkAllocKeeps(s: State, a: nat, c: nat)
    requires Inv(s) && At(s, a, Elsewhere) && c < |s.procs| && s.procs[c].st == Unused
    ensures Inv(ForkAlloc(s, a, c))
  {
    var t := ForkAlloc(s, a, c);
    Holder(s, a);
    forall p: nat ensures LocalOk(t, p) { assert LocalOk(s, p) && LocalOk(s, c); ForkAllocLocal(s, a, c, p); }
    forall q: nat, d: nat ensures PairOk(t, q, d) { ForkAllocPair(s, a, c, q, d); }
    forall e: nat ensures ExitOk(t, e) { assert ExitOk(s, e) && LocalOk(s, e); }
  }

  lemma ForkFailKeeps(s: State, a: nat, c: nat)
    requires Inv(s) && At(s, a, Elsewhere) && c < |s.procs| && s.procs[c].st == Unused
    ensures Inv(ForkFail(s, a, c))
  {
    var t := ForkFail(s, a, c);
    assert LocalOk(s, c);
    forall p: nat ensures LocalOk(t, p) { assert LocalOk(s, p); }
    forall q: nat, d: nat ensures PairOk(t, q, d) { assert PairOk(s, q, d) && LocalOk(s, q); }
    forall e: nat ensures ExitOk(t, e) { assert ExitOk(s, e); }
  }

  lemma ForkParentLocal(s: State, a: nat, c: nat, p: nat)
    requires Inv(s) && At(s, a, ForkHold(c)) && c < |s.procs|
    ensures LocalOk(ForkParent(s, a, c), p)
  {
    Holder(s, a);
    assert LocalOk(s, p);
  }

  lemma ForkParentPair(s: State, a: nat, c: nat, q: nat, d: nat)
    requires Inv(s) && At(s, a, ForkHold(c)) && c < |s.procs|
    ensures PairOk(ForkParent(s, a, c), q, d)
  {
    Holder(s, a);
    assert PairOk(s, q, d) && LocalOk(s, q) && LocalOk(s, d);
  }

  lemma ForkParentExit(s: State, a: nat, c: nat, e: nat)
    requires Inv(s) && At(s, a, ForkHold(c)) && c < |s.procs|
    ensures ExitOk(ForkParent(s, a, c), e)
  {
    Holder(s, a);
    assert ExitOk(s, e) && LocalOk(s, e);
  }

  lemma ForkParentKeeps(s: State, a: nat, c: nat)
    requires Inv(s) && At(s, a, ForkHold(c)) && c < |s.procs|
    ensures Inv(ForkParent(s, a, c))
  {
    var t := ForkParent(s, a, c);
    Holder(s, a);
    forall p: nat ensures LocalOk(t, p) { ForkParentLocal(s, a, c, p); }
    forall q: nat, d: nat ensures PairOk(t, q, d) { ForkParentPair(s, a, c, q, d); }
    forall e: nat ensures ExitOk(t, e) { assert ExitOk(s, e) && LocalOk(s, e); }
  }

  lemma ForkRunLocal(s: State, a: nat, c: nat, p: nat)
    requires LocalOk(s, a) && LocalOk(s, c) && LocalOk(s, p) && At(s, a, ForkReady(c)) && c < |s.procs|
    ensures LocalOk(ForkRun(s, a, c), p)
  {
  }

  lemma ForkRunPair(s: State, a: nat, c: nat, q: nat, d: nat)
    requires Inv(s) && At(s, a, ForkReady(c)) && c < |s.procs|
    ensures PairOk(ForkRun(s, a, c), q, d)
  {
    Holder(s, a);
    assert PairOk(s, q, d) && LocalOk(s, q) && LocalOk(s, d);
  }

  lemma ForkRunExit(s: State, a: nat, c: nat, e: nat)
    requires Inv(s) && At(s, a, ForkReady(c)) && c < |s.procs|
    ensures ExitOk(ForkRun(s, a, c), e)
  {
    Holder(s, a);
    assert ExitOk(s, e) && LocalOk(s, e);
  }

  lemma ForkRunKeeps(s: State, a: nat, c: nat)
    requires Inv(s) && At(s, a, ForkReady(c)) && c < |s.procs|
    ensures Inv(ForkRun(s, a, c))
  {
    var t := ForkRun(s, a, c);
    Holder(s, a);
    forall p: nat ensures LocalOk(t, p) { assert LocalOk(s, p) && LocalOk(s, c); ForkRunLocal(s, a, c, p); }
    forall q: nat, d: nat ensures PairOk(t, q, d) { ForkRunPair(s, a, c, q, d); }
    forall e: nat ensures ExitOk(t, e) { assert ExitOk(s, e) && LocalOk(s, e); }
  }

  lemma AdoptLocal(s: State, a: nat, i: nat, p: nat)
    requires Inv(s) && At(s, a, ExitReparent(i)) && i < |s.procs| && s.procs[i].parent == Some(a)
    ensures LocalOk(Adopt(s, a, i), p)
  {
    Holder(s, a);
    assert LocalOk(s, p);
    assert LocalOk(s, i) && PairOk(s, a, i);
  }

  lemma AdoptPair(s: State, a: nat, i: nat, q: nat, d: nat)
    requires Inv(s) && At(s, a, ExitReparent(i)) && i < |s.procs| && s.procs[i].parent == Some(a)
    ensures PairOk(Adopt(s, a, i), q, d)
  {
    Holder(s, a);
    assert PairOk(s, q, d) && LocalOk(s, q) && LocalOk(s, d);
    assert LocalOk(s, i) && PairOk(s, a, i);
  }

  lemma AdoptKeeps(s: State, a: nat, i: nat)
    requires Inv(s) && At(s, a, ExitReparent(i)) && i < |s.procs| && s.procs[i].parent == Some(a)
    ensures Inv(Adopt(s, a, i))
  {
    var t := Adopt(s, a, i);
    Holder(s, a);
    forall p: nat ensures LocalOk(t, p) { AdoptLocal(s, a, i, p); }
    forall q: nat, d: nat ensures PairOk(t, q, d) { AdoptPair(s, a, i, q, d); }
    forall e: nat ensures ExitOk(t, e) { assert ExitOk(s, e) && LocalOk(s, e); }
  }

  lemma ReparentLocal(s: State, a: nat, i: nat, p: nat)
    requires Inv(s) && At(s, a, ExitReparent(i)) && (i >= |s.procs| || s.procs[i].parent != Some(a))
    ensures LocalOk(Reparent(s, a, i), p)
  {
    Holder(s, a);
    assert LocalOk(s, p);
  }

  lemma ReparentKeeps(s: State, a: nat, i: nat)
    requires Inv(s) && At(s, a, ExitReparent(i)) && (i >= |s.procs| || s.procs[i].parent != Some(a))
    ensures Inv(Reparent(s, a, i))
  {
    var t := Reparent(s, a, i);
    Holder(s, a);
    forall p: nat ensures LocalOk(t, p) { ReparentLocal(s, a, i, p); }
    forall q: nat, d: nat ensures PairOk(t, q, d) { assert PairOk(s, q, d) && LocalOk(s, q) && LocalOk(s, d); }
    forall e: nat ensures ExitOk(t, e) { assert ExitOk(s, e) && LocalOk(s, e); }
  }

  /** Waking a slot while going through wakeup() keeps what holds of each process. */
  lemma WakeLocal(s: State, a: nat, j: nat, chan: Opt, pc: Pc, p: nat)
    requires LocalOk(s, p) && a < |s.procs| && j < |s.procs| && j != a
    requires (s.procs[a].pc.ExitWakeInit? && pc.ExitWakeInit?) || (s.procs[a].pc.ExitWakeParent? && pc.ExitWakeParent?)
    ensures LocalOk(Wake(s, a, j, chan, pc), p)
  {
    var t := Wake(s, a, j, chan, pc);
    if p < |s.procs| {
      assert p != a ==> t.procs[p] == s.procs[p] || (s.procs[p].st == Sleeping && t.procs[p] == s.procs[p].(st := Runnable));
      assert p == a ==> t.procs[p] == s.procs[p].(pc := pc);
    }
  }

  lemma RousePair(s: State, a: nat, i: nat, j: nat, q: nat, d: nat)
    requires At(s, a, ExitWakeInit(i, j)) && j < |s.procs| && j != a && Free(s, j)
    requires LocalOk(s, a) && LocalOk(s, j) && LocalOk(s, q) && LocalOk(s, d) && PairOk(s, q, d)
    ensures PairOk(Wake(s, a, j, Some(s.init), ExitWakeInit(i, j + 1)), q, d)
  {
  }

  lemma RouseKeeps(s: State, a: nat, i: nat, j: nat)
    requires Inv(s) && At(s, a, ExitWakeInit(i, j)) && j < |s.procs| && j != a && Free(s, j)
    ensures Inv(Wake(s, a, j, Some(s.init), ExitWakeInit(i, j + 1)))
  {
    var t := Wake(s, a, j, Some(s.init), ExitWakeInit(i, j + 1));
    Holder(s, a);
    forall p: nat ensures LocalOk(t, p) { assert LocalOk(s, p); WakeLocal(s, a, j, Some(s.init), ExitWakeInit(i, j + 1), p); }
    forall q: nat, d: nat ensures PairOk(t, q, d) { assert PairOk(s, q, d) && LocalOk(s, q) && LocalOk(s, d) && LocalOk(s, j); RousePair(s, a, i, j, q, d); }
    forall e: nat ensures ExitOk(t, e) { assert ExitOk(s, e) && LocalOk(s, e); }
  }

  lemma WakeInitPair(s: State, a: nat, i: nat, j: nat, q: nat, d: nat)
    requires Inv(s) && At(s, a, ExitWakeInit(i, j)) && (j >= |s.procs| || j == a)
    ensures PairOk(WakeInit(s, a, i, j), q, d)
  {
    Holder(s, a);
    assert PairOk(s, q, d) && LocalOk(s, q) && LocalOk(s, d);
  }

  lemma WakeInitKeeps(s: State, a: nat, i: nat, j: nat)
    requires Inv(s) && At(s, a, ExitWakeInit(i, j)) && (j >= |s.procs| || j == a)
    ensures Inv(WakeInit(s, a, i, j))
  {
    var t := WakeInit(s, a, i, j);
    Holder(s, a);
    forall p: nat ensures LocalOk(t, p) { assert LocalOk(s, p); }
    forall q: nat, d: nat ensures PairOk(t, q, d) { WakeInitPair(s, a, i, j, q, d); }
    forall e: nat ensures ExitOk(t, e) { assert ExitOk(s, e) && LocalOk(s, e); }
  }

  lemma RouseParentPair(s: State, a: nat, j: nat, q: nat, d: nat)
    requires Inv(s) && At(s, a, ExitWakeParent(j)) && j < |s.procs| && j != a && Free(s, j)
    ensures PairOk(Wake(s, a, j, s.procs[a].parent, ExitWakeParent(j + 1)), q, d)
  {
    Holder(s, a);
    assert PairOk(s, q, d) && LocalOk(s, q) && LocalOk(s, d);
    assert LocalOk(s, j);
  }

  lemma RouseParentExit(s: State, a: nat, j: nat, e: nat)
    requires Inv(s) && At(s, a, ExitWakeParent(j)) && j < |s.procs| && j != a && Free(s, j)
    ensures ExitOk(Wake(s, a, j, s.procs[a].parent, ExitWakeParent(j + 1)), e)
  {
    Holder(s, a);
    assert LocalOk(s, j);
    assert ExitOk(s, e) && LocalOk(s, e);
  }

  lemma RouseParentKeeps(s: State, a: nat, j: nat)
    requires Inv(s) && At(s, a, ExitWakeParent(j)) && j < |s.procs| && j != a && Free(s, j)
    ensures Inv(Wake(s, a, j, s.procs[a].parent, ExitWakeParent(j + 1)))
  {
    var t := Wake(s, a, j, s.procs[a].parent, ExitWakeParent(j + 1));
    Holder(s, a);
    assert LocalOk(s, j);
    forall p: nat ensures LocalOk(t, p) { assert LocalOk(s, p); WakeLocal(s, a, j, s.procs[a].parent, ExitWakeParent(j + 1), p); }
    forall q: nat, d: nat ensures PairOk(t, q, d) { RouseParentPair(s, a, j, q, d); }
    forall e: nat ensures ExitOk(t, e) { assert ExitOk(s, e) && LocalOk(s, e); }
  }

  lemma WakeParentKeeps(s: State, a: nat, j: nat)
    requires Inv(s) && At(s, a, ExitWakeParent(j)) && (j >= |s.procs| || j == a)
    ensures Inv(WakeParent(s, a, j))
  {
    var t := WakeParent(s, a, j);
    Holder(s, a);
    forall p: nat ensures LocalOk(t, p) { assert LocalOk(s, p); }
    forall q: nat, d: nat ensures PairOk(t, q, d) { assert PairOk(s, q, d) && LocalOk(s, q) && LocalOk(s, d); }
    forall e: nat ensures ExitOk(t, e) { assert ExitOk(s, e) && LocalOk(s, e); }
  }

  lemma BecomeZombieKeeps(s: State, a: nat)
    requires Inv(s) && At(s, a, ExitMark)
    ensures Inv(BecomeZombie(s, a))
  {
    var t := BecomeZombie(s, a);
    Holder(s, a);
    forall p: nat ensures LocalOk(t, p) { assert LocalOk(s, p); }
    forall q: nat, d: nat ensures PairOk(t, q, d) { assert PairOk(s, q, d) && LocalOk(s, q) && LocalOk(s, d); }
    forall e: nat ensures ExitOk(t, e) { assert ExitOk(s, e) && LocalOk(s, e); }
  }

  lemma ReapLocal(s: State, a: nat, i: nat, kids: bool, p: nat)
    requires Inv(s) && At(s, a, WaitScan(i, kids)) && i < |s.procs| && s.procs[i].parent == Some(a) && s.procs[i].st == Zombie
    ensures LocalOk(Reap(s, a, i), p)
  {
    Holder(s, a);
    assert LocalOk(s, p);
    assert LocalOk(s, i);
  }

  lemma ReapKeeps(s: State, a: nat, i: nat, kids: bool)
    requires Inv(s) && At(s, a, WaitScan(i, kids)) && i < |s.procs| && s.procs[i].parent == Some(a) && s.procs[i].st == Zombie
    ensures Inv(Reap(s, a, i))
  {
    var t := Reap(s, a, i);
    Holder(s, a);
    assert LocalOk(s, i);
    forall p: nat ensures LocalOk(t, p) { ReapLocal(s, a, i, kids, p); }
    forall q: nat, d: nat ensures PairOk(t, q, d) { assert PairOk(s, q, d) && LocalOk(s, q) && LocalOk(s, d); }
    forall e: nat ensures ExitOk(t, e) { assert ExitOk(s, e) && LocalOk(s, e); }
  }

  lemma SwitchLocal(s: State, a: nat, p: nat)
    requires Inv(s) && At(s, a, WaitDoze)
    ensures LocalOk(Switch(s, a), p)
  {
    Holder(s, a);
    assert LocalOk(s, p);
  }

  lemma SwitchKeeps(s: State, a: nat)
    requires Inv(s) && At(s, a, WaitDoze)
    ensures Inv(Switch(s, a))
  {
    var t := Switch(s, a);
    Holder(s, a);
    forall p: nat ensures LocalOk(t, p) { SwitchLocal(s, a, p); }
    forall q: nat, d: nat ensures PairOk(t, q, d) { assert PairOk(s, q, d) && LocalOk(s, q) && LocalOk(s, d); }
    forall e: nat ensures ExitOk(t, e) { assert ExitOk(s, e) && LocalOk(s, e); }
  }

  lemma ResumeLocal(s: State, a: nat, p: nat)
    requires Inv(s) && At(s, a, WaitAsleep)
    ensures LocalOk(Resume(s, a), p)
  {
    Holder(s, a);
    assert LocalOk(s, p);
  }

  lemma ResumeKeeps(s: State, a: nat)
    requires Inv(s) && At(s, a, WaitAsleep)
    ensures Inv(Resume(s, a))
  {
    var t := Resume(s, a);
    Holder(s, a);
    forall p: nat ensures LocalOk(t, p) { ResumeLocal(s, a, p); }
    forall q: nat, d: nat ensures PairOk(t, q, d) { assert PairOk(s, q, d) && LocalOk(s, q) && LocalOk(s, d); }
    forall e: nat ensures ExitOk(t, e) { assert ExitOk(s, e) && LocalOk(s, e); }
  }

  lemma KillSlotLocal(s: State, a: nat, p: nat)
    requires Inv(s) && a < |s.procs| && Free(s, a)
    ensures LocalOk(KillSlot(s, a), p)
  {
    Holder(s, a);
    assert LocalOk(s, p);
  }

  lemma KillSlotPair(s: State, a: nat, q: nat, d: nat)
    requires Inv(s) && a < |s.procs| && Free(s, a)
    ensures PairOk(KillSlot(s, a), q, d)
  {
    Holder(s, a);
    assert PairOk(s, q, d) && LocalOk(s, q) && LocalOk(s, d);
  }

  lemma KillSlotKeeps(s: State, a: nat)
    requires Inv(s) && a < |s.procs| && Free(s, a)
    ensures Inv(KillSlot(s, a))
  {
    var t := KillSlot(s, a);
    Holder(s, a);
    forall p: nat ensures LocalOk(t, p) { KillSlotLocal(s, a, p); }
    forall q: nat, d: nat ensures PairOk(t, q, d) { KillSlotPair(s, a, q, d); }
    forall e: nat ensures ExitOk(t, e) { assert ExitOk(s, e) && LocalOk(s, e); }
  }

  /** The program points before and after acquire(&wait_lock). */
  predicate Takes(pc: Pc, next: Pc) {
    || (pc.ForkWant? && next == ForkHold(pc.c))
    || (pc == ExitWant && next == ExitReparent(0))
    || (pc == WaitWant && next == WaitScan(0, false))
  }

  /** The program points before and after release(&wait_lock). */
  predicate Drops(pc: Pc, next: Pc) {
    || (pc == ExitRelease && next == Dead)
    || ((pc.WaitScan? || pc.WaitDecide?) && next == Elsewhere)
    || (pc == WaitHold && next == WaitDoze)
  }

  /** Steps of wait() that keep wait_lock and change nothing but the program counter. */
  predicate Scans(s: State, a: nat, next: Pc) {
    a < |s.procs| &&
    var pc := s.procs[a].pc;
    || (pc.WaitScan? && pc.i >= |s.procs| && next == WaitDecide(pc.kids))
    || (pc.WaitScan? && pc.i < |s.procs| && s.procs[pc.i].parent != Some(a) && next == WaitScan(pc.i + 1, pc.kids))
    || (pc.WaitScan? && pc.i < |s.procs| && s.procs[pc.i].st != Zombie && next == WaitScan(pc.i + 1, true))
    || (pc.WaitDecide? && next == WaitLock)
    || (pc == WaitLock && next == WaitHold)
  }

  lemma CallLocal(s: State, a: nat, next: Pc, p: nat)
    requires Inv(s) && At(s, a, Elsewhere) && (next == WaitWant || (next == ExitWant && a != s.init))
    ensures LocalOk(Goto(s, a, next), p)
  {
    Holder(s, a);
    assert LocalOk(s, p);
  }

  lemma CallPair(s: State, a: nat, next: Pc, q: nat, d: nat)
    requires Inv(s) && At(s, a, Elsewhere) && (next == WaitWant || (next == ExitWant && a != s.init))
    ensures PairOk(Goto(s, a, next), q, d)
  {
    Holder(s, a);
    assert PairOk(s, q, d) && LocalOk(s, q) && LocalOk(s, d);
  }

  lemma CallKeeps(s: State, a: nat, next: Pc)
    requires Inv(s) && At(s, a, Elsewhere) && (next == WaitWant || (next == ExitWant && a != s.init))
    ensures Inv(Goto(s, a, next))
  {
    var t := Goto(s, a, next);
    Holder(s, a);
    forall p: nat ensures LocalOk(t, p) { CallLocal(s, a, next, p); }
    forall q: nat, d: nat ensures PairOk(t, q, d) { CallPair(s, a, next, q, d); }
    forall e: nat ensures ExitOk(t, e) { assert ExitOk(s, e) && LocalOk(s, e); }
  }

  lemma LockLocal(s: State, a: nat, next: Pc, p: nat)
    requires Inv(s) && a < |s.procs| && s.lock == None && Takes(s.procs[a].pc, next)
    ensures LocalOk(Lock(s, a, next), p)
  {
    Holder(s, a);
    assert LocalOk(s, p);
  }

  lemma LockKeeps(s: State, a: nat, next: Pc)
    requires Inv(s) && a < |s.procs| && s.lock == None && Takes(s.procs[a].pc, next)
    ensures Inv(Lock(s, a, next))
  {
    var t := Lock(s, a, next);
    Holder(s, a);
    forall p: nat ensures LocalOk(t, p) { LockLocal(s, a, next, p); }
    forall q: nat, d: nat ensures PairOk(t, q, d) { assert PairOk(s, q, d) && LocalOk(s, q) && LocalOk(s, d); }
    forall e: nat ensures ExitOk(t, e) { assert ExitOk(s, e) && LocalOk(s, e); }
  }

  lemma UnlockPair(s: State, a: nat, next: Pc, q: nat, d: nat)
    requires Inv(s) && a < |s.procs| && Drops(s.procs[a].pc, next)
    ensures PairOk(Unlock(s, a, next), q, d)
  {
    Holder(s, a);
    assert PairOk(s, q, d) && LocalOk(s, q) && LocalOk(s, d);
  }

  lemma UnlockKeeps(s: State, a: nat, next: Pc)
    requires Inv(s) && a < |s.procs| && Drops(s.procs[a].pc, next)
    ensures Inv(Unlock(s, a, next))
  {
    var t := Unlock(s, a, next);
    Holder(s, a);
    forall p: nat ensures LocalOk(t, p) { assert LocalOk(s, p); }
    forall q: nat, d: nat ensures PairOk(t, q, d) { UnlockPair(s, a, next, q, d); }
    forall e: nat ensures ExitOk(t, e) { assert ExitOk(s, e) && LocalOk(s, e); }
  }

  lemma ScanPair(s: State, a: nat, next: Pc, q: nat, d: nat)
    requires Inv(s) && Scans(s, a, next)
    ensures PairOk(Goto(s, a, next), q, d)
  {
    Holder(s, a);
    assert PairOk(s, q, d) && LocalOk(s, q) && LocalOk(s, d);
  }

  lemma ScanKeeps(s: State, a: nat, next: Pc)
    requires Inv(s) && Scans(s, a, next)
    ensures Inv(Goto(s, a, next))
  {
    var t := Goto(s, a, next);
    Holder(s, a);
    forall p: nat ensures LocalOk(t, p) { assert LocalOk(s, p); }
    forall q: nat, d: nat ensures PairOk(t, q, d) { ScanPair(s, a, next, q, d); }
    forall e: nat ensures ExitOk(t, e) { assert ExitOk(s, e) && LocalOk(s, e); }
  }

  lemma AdvanceKeeps(s: State, a: nat, copied: bool)
    requires Inv(s)
    ensures Inv(Advance(s, a, copied))
  {
    if a < |s.procs| && At(s, a, s.procs[a].pc) {
      var pc := s.procs[a].pc;
      if InFork(pc) { ForkAdvance(s, a, copied); } else if InExit(pc) { ExitAdvance(s, a, copied); } else { WaitAdvance(s, a, copied); }
    }
  }

  lemma ForkAdvance(s: State, a: nat, copied: bool)
    requires Inv(s) && a < |s.procs| && At(s, a, s.procs[a].pc) && InFork(s.procs[a].pc)
    ensures Inv(Advance(s, a, copied))
  {
    Holder(s, a);
    match s.procs[a].pc
    case ForkWant(c) => if s.lock == None { LockKeeps(s, a, ForkHold(c)); }
    case ForkHold(c) => ForkParentKeeps(s, a, c);
    case ForkReady(c) => ForkRunKeeps(s, a, c);
  }

  lemma ExitAdvance(s: State, a: nat, copied: bool)
    requires Inv(s) && a < |s.procs| && At(s, a, s.procs[a].pc) && InExit(s.procs[a].pc)
    ensures Inv(Advance(s, a, copied))
  {
    Holder(s, a);
    match s.procs[a].pc
    case ExitWant => if s.lock == None { LockKeeps(s, a, ExitReparent(0)); }
    case ExitReparent(i) =>
      if i < |s.procs| && s.procs[i].parent == Some(a) { AdoptKeeps(s, a, i); } else { ReparentKeeps(s, a, i); }
    case ExitWakeInit(i, j) =>
      if j >= |s.procs| || j == a { WakeInitKeeps(s, a, i, j); } else if Free(s, j) { RouseKeeps(s, a, i, j); }
    case ExitWakeParent(j) =>
      if j >= |s.procs| || j == a { WakeParentKeeps(s, a, j); } else if Free(s, j) { RouseParentKeeps(s, a, j); }
    case ExitMark => BecomeZombieKeeps(s, a);
    case ExitRelease => UnlockKeeps(s, a, Dead);
  }

  lemma WaitAdvance(s: State, a: nat, copied: bool)
    requires Inv(s) && a < |s.procs| && At(s, a, s.procs[a].pc) && !InFork(s.procs[a].pc) && !InExit(s.procs[a].pc)
    ensures Inv(Advance(s, a, copied))
  {
    Holder(s, a);
    match s.procs[a].pc
    case WaitWant => if s.lock == None { LockKeeps(s, a, WaitScan(0, false)); }
    case WaitScan(i, kids) => ScanStepKeeps(s, a, i, kids, copied);
    case WaitDecide(kids) =>
      if !kids || s.procs[a].killed { UnlockKeeps(s, a, Elsewhere); } else { ScanKeeps(s, a, WaitLock); }
    case WaitLock => ScanKeeps(s, a, WaitHold);
    case WaitHold => UnlockKeeps(s, a, WaitDoze);
    case WaitDoze => SwitchKeeps(s, a);
    case WaitAsleep => ResumeKeeps(s, a);
    case Elsewhere =>
    case Dead =>
  }

  lemma ScanStepKeeps(s: State, a: nat, i: nat, kids: bool, copied: bool)
    requires Inv(s) && At(s, a, WaitScan(i, kids))
    ensures Inv(Scan(s, a, i, kids, copied))
  {
    if i >= |s.procs| {
      ScanKeeps(s, a, WaitDecide(kids));
    } else if s.procs[i].parent != Some(a) {
      ScanKeeps(s, a, WaitScan(i + 1, kids));
    } else if Free(s, i) {
      if s.procs[i].st != Zombie {
        ScanKeeps(s, a, WaitScan(i + 1, true));
      } else if !copied {
        UnlockKeeps(s, a, Elsewhere);
      } else {
        ReapKeeps(s, a, i, kids);
      }
    }
  }

  lemma NextKeeps(s: State, step: Step)
    requires Inv(s)
    ensures Inv(Next(s, step))
  {
    match step
    case Fork(a, c) =>
      if At(s, a, Elsewhere) && c < |s.procs| && s.procs[c].st == Unused { ForkAllocKeeps(s, a, c); }
    case ForkFails(a, c) =>
      if At(s, a, Elsewhere) && c < |s.procs| && s.procs[c].st == Unused { ForkFailKeeps(s, a, c); }
    case Exit(a) => if At(s, a, Elsewhere) && a != s.init { CallKeeps(s, a, ExitWant); }
    case Wait(a) => if At(s, a, Elsewhere) { CallKeeps(s, a, WaitWant); }
    case Kill(q) => if q < |s.procs| && Free(s, q) { KillSlotKeeps(s, q); }
    case Go(a, copied) => AdvanceKeeps(s, a, copied);
  }

  // ------------------------------------------------- process identifiers

  /** A step that neither takes nor frees a slot. */
  ghost predicate SamePids(s: State, t: State) {
    && |t.procs| == |s.procs| && t.nextpid == s.nextpid && t.reaped == s.reaped && t.givenUp == s.givenUp
    && forall p: nat :: SamePid(s, t, p)
  }

  predicate SamePid(s: State, t: State, p: nat) {
    p < |s.procs| && p < |t.procs| ==>
      t.procs[p].pid == s.procs[p].pid && (t.procs[p].st == Unused <==> s.procs[p].st == Unused)
  }

  lemma SamePidsKeep(s: State, t: State)
    requires PidInv(s) && SamePids(s, t)
    ensures PidInv(t)
  {
    forall p: nat ensures PidOk(t, p) { assert PidOk(s, p) && SamePid(s, t, p); }
    forall p: nat, q: nat ensures PidsDiffer(t, p, q) { assert PidsDiffer(s, p, q) && SamePid(s, t, p) && SamePid(s, t, q); }
    forall k: nat ensures Accounted(t, k) {
      assert Accounted(s, k);
      if p: nat :| Owns(s, p, k) { assert SamePid(s, t, p) && Owns(t, p, k); }
    }
  }

  lemma AllocPids(s: State, a: nat, c: nat)
    requires PidInv(s) && At(s, a, Elsewhere) && c < |s.procs| && s.procs[c].st == Unused
    ensures PidInv(ForkAlloc(s, a, c))
  {
    var t := ForkAlloc(s, a, c);
    forall p: nat ensures PidOk(t, p) { assert PidOk(s, p); }
    forall p: nat, q: nat ensures PidsDiffer(t, p, q) { assert PidsDiffer(s, p, q) && PidOk(s, p) && PidOk(s, q); }
    forall k: nat ensures Accounted(t, k) {
      assert Accounted(s, k) && Owns(t, c, s.nextpid);
      if p: nat :| Owns(s, p, k) { assert Owns(t, p, k); }
    }
  }

  lemma FailPids(s: State, a: nat, c: nat)
    requires PidInv(s) && At(s, a, Elsewhere) && c < |s.procs| && s.procs[c].st == Unused
    ensures PidInv(ForkFail(s, a, c))
  {
    var t := ForkFail(s, a, c);
    forall p: nat ensures PidOk(t, p) { assert PidOk(s, p); }
    forall p: nat, q: nat ensures PidsDiffer(t, p, q) { assert PidsDiffer(s, p, q); }
    assert t.givenUp[|s.givenUp|] == s.nextpid;
    forall k: nat ensures Accounted(t, k) {
      assert Accounted(s, k);
      if p: nat :| Owns(s, p, k) { assert Owns(t, p, k); }
    }
  }

  lemma ReapPids(s: State, a: nat, i: nat, kids: bool)
    requires PidInv(s) && At(s, a, WaitScan(i, kids)) && i < |s.procs| && s.procs[i].st == Zombie && i != a
    ensures PidInv(Reap(s, a, i))
  {
    var t := Reap(s, a, i);
    assert PidOk(s, i);
    forall p: nat ensures PidOk(t, p) { assert PidOk(s, p) && PidsDiffer(s, p, i); }
    forall p: nat, q: nat ensures PidsDiffer(t, p, q) { assert PidsDiffer(s, p, q); }
    forall k: nat ensures Accounted(t, k) {
      assert Accounted(s, k);
      if p: nat :| Owns(s, p, k) { assert p == i || Owns(t, p, k); }
    }
  }

  /** The step is the one in which wait() frees a child. */
  predicate Reaps(s: State, a: nat, copied: bool) {
    a < |s.procs| && copied && At(s, a, s.procs[a].pc) && s.procs[a].pc.WaitScan? &&
    var i := s.procs[a].pc.i;
    i < |s.procs| && s.procs[i].parent == Some(a) && Free(s, i) && s.procs[i].st == Zombie
  }

  lemma ForkPids(s: State, a: nat, copied: bool)
    requires Inv(s) && !Reaps(s, a, copied) && a < |s.procs| && InFork(s.procs[a].pc)
    ensures SamePids(s, Advance(s, a, copied))
  {
    Holder(s, a);
    forall p: nat ensures SamePid(s, Advance(s, a, copied), p) {}
  }

  /** The steps of wakeup() and reparent(). */
  predicate Sweeps(pc: Pc) {
    pc.ExitReparent? || pc.ExitWakeInit? || pc.ExitWakeParent?
  }

  lemma SweepPids(s: State, a: nat, copied: bool)
    requires LocalOk(s, a) && !Reaps(s, a, copied) && a < |s.procs| && Sweeps(s.procs[a].pc)
    ensures SamePids(s, Advance(s, a, copied))
  {
    forall p: nat ensures SamePid(s, Advance(s, a, copied), p) {}
  }

  lemma ExitPids(s: State, a: nat, copied: bool)
    requires LocalOk(s, a) && !Reaps(s, a, copied) && a < |s.procs| && InExit(s.procs[a].pc) && !Sweeps(s.procs[a].pc)
    ensures SamePids(s, Advance(s, a, copied))
  {
    forall p: nat ensures SamePid(s, Advance(s, a, copied), p) {}
  }

  lemma WaitPids(s: State, a: nat, copied: bool)
    requires LocalOk(s, a) && !Reaps(s, a, copied) && a < |s.procs| && !InFork(s.procs[a].pc) && !InExit(s.procs[a].pc)
    ensures SamePids(s, Advance(s, a, copied))
  {
    forall p: nat ensures SamePid(s, Advance(s, a, copied), p) {}
  }

  lemma GoPids(s: State, a: nat, copied: bool)
    requires Inv(s) && !Reaps(s, a, copied)
    ensures SamePids(s, Advance(s, a, copied))
  {
    assert LocalOk(s, a);
    if a >= |s.procs| {
    } else if InFork(s.procs[a].pc) {
      ForkPids(s, a, copied);
    } else if Sweeps(s.procs[a].pc) {
      SweepPids(s, a, copied);
    } else if InExit(s.procs[a].pc) {
      ExitPids(s, a, copied);
    } else {
      WaitPids(s, a, copied);
    }
  }

  lemma NextPids(s: State, step: Step)
    requires Inv(s) && PidInv(s)
    ensures PidInv(Next(s, step))
  {
    match step
    case Fork(a, c) => if At(s, a, Elsewhere) && c < |s.procs| && s.procs[c].st == Unused { AllocPids(s, a, c); }
    case ForkFails(a, c) => if At(s, a, Elsewhere) && c < |s.procs| && s.procs[c].st == Unused { FailPids(s, a, c); }
    case Go(a, copied) =>
      if Reaps(s, a, copied) {
        assert PairOk(s, a, s.procs[a].pc.i);
        ReapPids(s, a, s.procs[a].pc.i, s.procs[a].pc.kids);
      } else {
        GoPids(s, a, copied);
        SamePidsKeep(s, Advance(s, a, copied));
      }
    case _ => SamePidsKeep(s, Next(s, step));
  }

  // ------------------------------------------------- whole runs

  lemma {:induction false} RunInv(n: nat, steps: seq<Step>)
    requires n > 0
    ensures Inv(Run(Boot(n), steps)) && PidInv(Run(Boot(n), steps))
  {
    if steps == [] {
      BootInv(n);
    } else {
      var prev := steps[..|steps| - 1];
      RunInv(n, prev);
      NextKeeps(Run(Boot(n), prev), steps[|steps| - 1]);
      NextPids(Run(Boot(n), prev), steps[|steps| - 1]);
    }
  }

  /** In every interleaving: a zombie has a living parent, and once wait_lock is free
      that parent does not sleep in wait(). */
  lemma NoLostExit(n: nat, steps: seq<Step>, c: nat)
    requires n > 0
    ensures var s := Run(Boot(n), steps);
            c < |s.procs| && s.procs[c].st == Zombie ==>
              && s.procs[c].parent.Some? && s.procs[c].parent.v < |s.procs| && s.procs[c].parent.v != c
              && Living(s.procs[s.procs[c].parent.v])
              && (s.lock == None ==> !Dozing(s.procs[s.procs[c].parent.v]))
  {
    var s := Run(Boot(n), steps);
    RunInv(n, steps);
    assert LocalOk(s, c);
    if c < |s.procs| && s.procs[c].st == Zombie {
      assert LocalOk(s, s.init);
      assert PairOk(s, s.procs[c].parent.v, c);
    }
  }

  /** wait() gives up for want of children only when there is none, and goes to sleep
      only when no child is a zombie. */
  lemma WaitIsRight(n: nat, steps: seq<Step>, a: nat, c: nat)
    requires n > 0
    ensures var s := Run(Boot(n), steps);
            a < |s.procs| && c < |s.procs| && s.procs[c].parent == Some(a) ==>
              && s.procs[a].pc != WaitDecide(false)
              && (s.procs[a].pc == WaitDecide(true) ==> s.procs[c].st != Zombie)
  {
    RunInv(n, steps);
    assert PairOk(Run(Boot(n), steps), a, c);
  }

  /** Every pid given out is exactly one of three things: the pid of one slot, returned by
      wait() once, or given up once by a fork that failed. */
  lemma ReapedExactlyOnce(n: nat, steps: seq<Step>, k: nat)
    requires n > 0
    ensures var s := Run(Boot(n), steps);
            0 < k < s.nextpid ==>
              && (Gone(s, k) <==> !exists p: nat :: Owns(s, p, k))
              && !(k in s.reaped && k in s.givenUp)
              && (forall p: nat, q: nat :: Owns(s, p, k) && Owns(s, q, k) ==> p == q)
    ensures Once(Run(Boot(n), steps).reaped) && Once(Run(Boot(n), steps).givenUp)
  {
    var s := Run(Boot(n), steps);
    RunInv(n, steps);
    assert Accounted(s, k);
    forall p: nat | Owns(s, p, k) ensures !Gone(s, k) { assert PidOk(s, p); }
    forall p: nat, q: nat | Owns(s, p, k) && Owns(s, q, k) ensures p == q { assert PidsDiffer(s, p, q); }
  }
}
