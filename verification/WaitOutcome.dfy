/**
 What becomes of a process that calls wait(), fork(), exit() or kill(): the steps of WaitExit
 seen from the outside.
 */
module WaitOutcome {
  import opened WaitExit

  predicate InWait(pc: Pc) {
    pc.WaitWant? || pc.WaitScan? || pc.WaitDecide? || pc.WaitLock? || pc.WaitHold? || pc.WaitDoze? || pc.WaitAsleep?
  }

  /** Past the test for children and kills: sleep() is entered. */
  predicate Sleeps(pc: Pc) {
    pc.WaitLock? || pc.WaitHold? || pc.WaitDoze?
  }

  predicate Child(s: State, a: nat, c: nat) {
    c < |s.procs| && s.procs[c].parent == Some(a)
  }

  predicate ZombieChild(s: State, a: nat, c: nat) {
    Child(s, a, c) && s.procs[c].st == Zombie
  }

  // ------------------------------------------------- a process inside wait() has children

  /** It has seen a child. */
  predicate SawKid(pc: Pc) {
    (pc.WaitScan? && pc.kids) || (pc.WaitDecide? && pc.kids) || Sleeps(pc) || pc.WaitAsleep?
  }

  ghost predicate KidOk(s: State, a: nat) {
    a < |s.procs| && SawKid(s.procs[a].pc) ==> exists c: nat :: Child(s, a, c)
  }

  /** Slot a from s to t: where its process is, and whether it was killed, stays, unless the
      slot of a zombie is freed. */
  predicate Stays(s: State, t: State, a: nat) {
    && a < |s.procs| && |t.procs| == |s.procs|
    && (s.procs[a].st != Zombie ==> t.procs[a].pc == s.procs[a].pc && t.procs[a].killed == s.procs[a].killed)
    && (s.procs[a].st == Zombie ==> t.procs[a].pc == s.procs[a].pc || t.procs[a].pc == Elsewhere)
  }

  lemma ForkMove(s: State, x: nat, copied: bool, a: nat)
    requires LocalOk(s, a) && a < |s.procs| && x != a && x < |s.procs| && InFork(s.procs[x].pc)
    ensures Stays(s, Advance(s, x, copied), a)
  {
  }

  lemma WakeMove(s: State, x: nat, j: nat, chan: Opt, pc: Pc, a: nat)
    requires a < |s.procs| && x != a && x < |s.procs| && j < |s.procs|
    ensures Stays(s, Wake(s, x, j, chan, pc), a)
  {
  }

  lemma ExitMove(s: State, x: nat, copied: bool, a: nat)
    requires LocalOk(s, a) && a < |s.procs| && x != a && x < |s.procs| && InExit(s.procs[x].pc)
    ensures Stays(s, Advance(s, x, copied), a)
  {
    var pc := s.procs[x].pc;
    if pc.ExitWakeInit? && pc.j < |s.procs| { WakeMove(s, x, pc.j, Some(s.init), ExitWakeInit(pc.i, pc.j + 1), a); }
    if pc.ExitWakeParent? && pc.j < |s.procs| { WakeMove(s, x, pc.j, s.procs[x].parent, ExitWakeParent(pc.j + 1), a); }
  }

  lemma WaitMove(s: State, x: nat, copied: bool, a: nat)
    requires LocalOk(s, a) && a < |s.procs| && x != a && x < |s.procs| && InWait(s.procs[x].pc)
    ensures Stays(s, Advance(s, x, copied), a)
  {
  }

  /** Another process leaves process a where it is. */
  lemma OthersMove(s: State, x: nat, copied: bool, a: nat)
    requires LocalOk(s, a) && a < |s.procs| && x != a
    ensures Stays(s, Advance(s, x, copied), a)
  {
    if x < |s.procs| {
      if InFork(s.procs[x].pc) { ForkMove(s, x, copied, a); }
      if InExit(s.procs[x].pc) { ExitMove(s, x, copied, a); }
      if InWait(s.procs[x].pc) { WaitMove(s, x, copied, a); }
    }
  }

  lemma OthersStep(s: State, step: Step, a: nat)
    requires Inv(s) && a < |s.procs| && InWait(s.procs[a].pc) && !(step.Go? && step.a == a)
    ensures |Next(s, step).procs| == |s.procs| && Next(s, step).procs[a].pc == s.procs[a].pc
  {
    assert LocalOk(s, a);
    if step.Go? { OthersMove(s, step.a, step.copied, a); }
  }

  // ------------------------------------------------- the life of a slot

  /** The parent pointer of slot c when process x goes on. */
  predicate ParentMoves(s: State, t: State, x: nat, c: nat) {
    && x < |s.procs| && c < |s.procs| && |t.procs| == |s.procs|
    && var pc, was, now := s.procs[x].pc, s.procs[c].parent, t.procs[c].parent;
       || now == was
       || (pc == ForkHold(c) && was == None && now == Some(x))
       || (pc == ExitReparent(c) && was == Some(x) && now == Some(s.init))
       || (pc.WaitScan? && ZombieChild(s, x, c) && now == None)
  }

  /** The state of slot c when process x goes on. */
  predicate StatusMoves(s: State, t: State, x: nat, c: nat) {
    && x < |s.procs| && c < |s.procs| && |t.procs| == |s.procs|
    && var pc, was, now := s.procs[x].pc, s.procs[c].st, t.procs[c].st;
       || now == was
       || (pc == ForkReady(c) && was == Used && now == Runnable)
       || (pc == ExitMark && x == c && now == Zombie)
       || (pc == WaitDoze && x == c && now == Sleeping && t.procs[c].chan == Some(x))
       || (pc.ExitWakeInit? && was == Sleeping && now == Runnable && s.procs[c].chan == Some(s.init))
       || (pc.ExitWakeParent? && was == Sleeping && now == Runnable && s.procs[c].chan == s.procs[x].parent)
       || (pc.WaitScan? && ZombieChild(s, x, c) && now == Unused && t.reaped == s.reaped + [s.procs[c].pid])
  }

  /** Its pid and its killed flag stay, unless the slot is freed. */
  predicate NameStays(s: State, t: State, c: nat) {
    && c < |s.procs| && |t.procs| == |s.procs| && t.init == s.init
    && (t.procs[c].st != Unused || s.procs[c].st == Unused ==>
          t.procs[c].pid == s.procs[c].pid && t.procs[c].killed == s.procs[c].killed)
  }

  predicate SlotMoves(s: State, t: State, x: nat, c: nat) {
    ParentMoves(s, t, x, c) && StatusMoves(s, t, x, c) && NameStays(s, t, c)
  }

  lemma ForkSlot(s: State, x: nat, copied: bool, c: nat)
    requires LocalOk(s, x) && x < |s.procs| && c < |s.procs| && InFork(s.procs[x].pc)
    ensures SlotMoves(s, Advance(s, x, copied), x, c)
  {
  }

  lemma WakeSlot(s: State, x: nat, j: nat, chan: Opt, pc: Pc, c: nat)
    requires x < |s.procs| && c < |s.procs| && j < |s.procs|
    ensures var t := Wake(s, x, j, chan, pc);
            && |t.procs| == |s.procs| && t.procs[c].parent == s.procs[c].parent && NameStays(s, t, c)
            && (t.procs[c].st == s.procs[c].st || (s.procs[c].st == Sleeping && t.procs[c].st == Runnable && s.procs[c].chan == chan))
  {
  }

  lemma ExitSlot(s: State, x: nat, copied: bool, c: nat)
    requires LocalOk(s, x) && x < |s.procs| && c < |s.procs| && InExit(s.procs[x].pc)
    ensures SlotMoves(s, Advance(s, x, copied), x, c)
  {
    var pc := s.procs[x].pc;
    if pc.ExitWakeInit? && pc.j < |s.procs| { WakeSlot(s, x, pc.j, Some(s.init), ExitWakeInit(pc.i, pc.j + 1), c); }
    if pc.ExitWakeParent? && pc.j < |s.procs| { WakeSlot(s, x, pc.j, s.procs[x].parent, ExitWakeParent(pc.j + 1), c); }
  }

  lemma WaitSlot(s: State, x: nat, copied: bool, c: nat)
    requires LocalOk(s, x) && x < |s.procs| && c < |s.procs| && InWait(s.procs[x].pc)
    ensures SlotMoves(s, Advance(s, x, copied), x, c)
  {
  }

  lemma GoSlot(s: State, x: nat, copied: bool, c: nat)
    requires LocalOk(s, x) && x < |s.procs| && c < |s.procs|
    ensures SlotMoves(s, Advance(s, x, copied), x, c)
  {
    if InFork(s.procs[x].pc) { ForkSlot(s, x, copied, c); }
    if InExit(s.procs[x].pc) { ExitSlot(s, x, copied, c); }
    if InWait(s.procs[x].pc) { WaitSlot(s, x, copied, c); }
  }

  /** The other steps touch one slot: fork() takes a free one, and kill() marks its victim and
      wakes it. */
  predicate CallMoves(s: State, step: Step, t: State, c: nat) {
    && c < |s.procs| && |t.procs| == |s.procs| && t.procs[c].parent == s.procs[c].parent && t.reaped == s.reaped
    && var was, now := s.procs[c], t.procs[c];
       match step
       case Fork(a, d) =>
         || (now.st == was.st && now.pid == was.pid && now.killed == was.killed)
         || (c == d && was.st == Unused && now.st == Used && now.pid == s.nextpid && now.forker == a && t.nextpid == s.nextpid + 1)
       case ForkFails(a, d) => now.st == was.st && (c == d || was == now)
       case Kill(q) => if c == q && Free(s, q) then KilledNow(was, now) else now == was
       case Exit(_) => now.st == was.st && now.pid == was.pid && now.killed == was.killed
       case Wait(_) => now.st == was.st && now.pid == was.pid && now.killed == was.killed
       case Go(_, _) => true
  }

  predicate KilledNow(was: Proc, now: Proc) {
    && now.killed && now.pid == was.pid && now.pc == was.pc
    && now.st == if was.st == Sleeping then Runnable else was.st
  }

  /** In every interleaving a slot changes only as fork(), exit(), wait() and kill() say. */
  lemma LifeCycle(n: nat, steps: seq<Step>, step: Step, c: nat)
    requires n > 0
    ensures var s := Run(Boot(n), steps);
            c < |s.procs| ==>
              && (step.Go? && step.a < |s.procs| ==> SlotMoves(s, Next(s, step), step.a, c))
              && (!step.Go? ==> CallMoves(s, step, Next(s, step), c))
  {
    var s := Run(Boot(n), steps);
    RunInv(n, steps);
    if c < |s.procs| {
      assert LocalOk(s, c);
      if step.Go? && step.a < |s.procs| {
        assert LocalOk(s, step.a);
        GoSlot(s, step.a, step.copied, c);
      }
    }
  }

  /** Only the parent, in wait() or in exit(), takes a child away. */
  lemma ChildStays(s: State, step: Step, a: nat, c: nat)
    requires Inv(s) && a < |s.procs| && InWait(s.procs[a].pc) && Child(s, a, c)
    requires step.Go? && step.a == a ==> Next(s, step).procs[a].pc != Elsewhere
    ensures Child(Next(s, step), a, c)
  {
    assert LocalOk(s, a) && LocalOk(s, c);
    if step.Go? {
      if step.a < |s.procs| { assert LocalOk(s, step.a); GoSlot(s, step.a, step.copied, c); }
      if step.a == a { OwnScan(s, a, step.copied); }
    }
  }

  lemma OwnScan(s: State, a: nat, copied: bool)
    requires a < |s.procs| && InWait(s.procs[a].pc) && Advance(s, a, copied).procs[a].pc != Elsewhere
    ensures forall c: nat :: c < |s.procs| ==> Advance(s, a, copied).procs[c].parent == s.procs[c].parent
  {
  }

  lemma SawOne(s: State, a: nat, copied: bool) returns (c: nat)
    requires Inv(s) && a < |s.procs| && InWait(s.procs[a].pc) && !SawKid(s.procs[a].pc)
    requires SawKid(Advance(s, a, copied).procs[a].pc)
    ensures Child(s, a, c)
  {
    c := s.procs[a].pc.i;
  }

  lemma KidStep(s: State, step: Step, a: nat)
    requires Inv(s) && KidOk(s, a)
    ensures KidOk(Next(s, step), a)
  {
    var t := Next(s, step);
    if a < |t.procs| && SawKid(t.procs[a].pc) {
      StaysInWait(s, step, a);
      if step.Go? && step.a == a {
        var c: nat;
        if SawKid(s.procs[a].pc) { c :| Child(s, a, c); } else { c := SawOne(s, a, step.copied); }
        ChildStays(s, step, a, c);
      } else {
        OthersStep(s, step, a);
        var c: nat :| Child(s, a, c);
        ChildStays(s, step, a, c);
      }
    }
  }

  lemma SameTable(s: State, x: nat, copied: bool)
    ensures |Advance(s, x, copied).procs| == |s.procs|
  {
  }

  lemma CallStay(s: State, step: Step, a: nat)
    requires !step.Go? && a < |Next(s, step).procs| && SawKid(Next(s, step).procs[a].pc)
    ensures a < |s.procs| && s.procs[a].pc == Next(s, step).procs[a].pc
  {
  }

  lemma OwnStay(s: State, a: nat, copied: bool)
    requires a < |Advance(s, a, copied).procs| && SawKid(Advance(s, a, copied).procs[a].pc)
    ensures a < |s.procs| && InWait(s.procs[a].pc)
  {
  }

  /** Inside the loop of wait() a process was inside wait() before. */
  lemma StaysInWait(s: State, step: Step, a: nat)
    requires Inv(s) && a < |Next(s, step).procs| && SawKid(Next(s, step).procs[a].pc)
    ensures a < |s.procs| && InWait(s.procs[a].pc)
  {
    assert LocalOk(s, a);
    if !step.Go? {
      CallStay(s, step, a);
    } else if step.a == a {
      OwnStay(s, a, step.copied);
    } else {
      SameTable(s, step.a, step.copied);
      OthersMove(s, step.a, step.copied, a);
    }
  }

  /** Whoever sleeps in wait() has a child to wait for. */
  lemma {:induction false} SleeperHasChild(n: nat, steps: seq<Step>, a: nat)
    requires n > 0
    ensures KidOk(Run(Boot(n), steps), a)
  {
    if steps != [] {
      var prev := steps[..|steps| - 1];
      SleeperHasChild(n, prev, a);
      RunInv(n, prev);
      KidStep(Run(Boot(n), prev), steps[|steps| - 1], a);
    }
  }

  // ------------------------------------------------- how wait() returns

  /** wait() gave process a the pid of its child c, whose slot is free again. */
  predicate Collected(s: State, t: State, a: nat, c: nat) {
    && ZombieChild(s, a, c) && |t.procs| == |s.procs|
    && t.reaped == s.reaped + [s.procs[c].pid] && Freed(t.procs[c])
  }

  predicate Freed(p: Proc) {
    p.st == Unused && p.parent == None && p.chan == None && p.pid == 0 && !p.killed
  }

  ghost predicate Returns(s: State, t: State, a: nat, copied: bool) {
    a < |s.procs| && if t.reaped == s.reaped
    then s.procs[a].killed || (forall c: nat :: !Child(s, a, c)) || (!copied && exists c: nat :: ZombieChild(s, a, c))
    else exists c: nat :: Collected(s, t, a, c)
  }

  lemma OwnReturn(s: State, a: nat, copied: bool)
    requires Inv(s) && a < |s.procs| && InWait(s.procs[a].pc) && Advance(s, a, copied).procs[a].pc == Elsewhere
    ensures Returns(s, Advance(s, a, copied), a, copied)
  {
    var pc, t := s.procs[a].pc, Advance(s, a, copied);
    assert LocalOk(s, a);
    if pc.WaitDecide? {
      forall c: nat | Child(s, a, c) ensures pc.kids { assert PairOk(s, a, c); }
    } else {
      assert ZombieChild(s, a, pc.i);
      assert copied ==> Collected(s, t, a, pc.i);
    }
  }

  /** In every interleaving: a process leaves wait() by its own step, with the pid of a zombie
      child that is freed with it, or with -1; -1 only if it was killed, if it has no child, or
      if the status of a zombie child could not be copied out. */
  lemma WaitReturns(n: nat, steps: seq<Step>, step: Step, a: nat)
    requires n > 0
    ensures var s := Run(Boot(n), steps);
            a < |s.procs| && InWait(s.procs[a].pc) && a < |Next(s, step).procs| && Next(s, step).procs[a].pc == Elsewhere ==>
              step.Go? && step.a == a && Returns(s, Next(s, step), a, step.copied)
  {
    var s := Run(Boot(n), steps);
    RunInv(n, steps);
    if a < |s.procs| && InWait(s.procs[a].pc) && a < |Next(s, step).procs| && Next(s, step).procs[a].pc == Elsewhere {
      if !(step.Go? && step.a == a) { OthersStep(s, step, a); }
      OwnReturn(s, a, step.copied);
    }
  }

  // ------------------------------------------------- where the own steps of a process lead

  ghost predicate StepAt(steps: seq<Step>, states: seq<State>, i: nat) {
    i < |steps| && i + 1 < |states| ==> states[i + 1] == Next(states[i], steps[i])
  }

  ghost predicate Path(s: State, steps: seq<Step>, t: State, states: seq<State>) {
    |states| == |steps| + 1 && states[0] == s && states[|steps|] == t && forall i: nat :: StepAt(steps, states, i)
  }

  /** The steps lead from s to t. */
  ghost predicate Leads(s: State, steps: seq<Step>, t: State) {
    exists states :: Path(s, steps, t, states)
  }

  lemma LeadsOne(s: State, g: Step)
    ensures Leads(s, [g], Next(s, g))
  {
    var states := [s, Next(s, g)];
    forall i: nat ensures StepAt([g], states, i) {}
    assert Path(s, [g], Next(s, g), states);
  }

  lemma LeadsThen(s: State, x: seq<Step>, t: State, y: seq<Step>, u: State)
    requires Leads(s, x, t) && Leads(t, y, u)
    ensures Leads(s, x + y, u)
  {
    var p :| Path(s, x, t, p);
    var q :| Path(t, y, u, q);
    var all, steps := p + q[1..], x + y;
    forall i: nat ensures StepAt(steps, all, i) {
      if i < |x| { assert StepAt(x, p, i); } else { assert StepAt(y, q, i - |x|); }
    }
    assert Path(s, steps, u, all);
  }

  lemma {:induction false} PathRuns(s: State, steps: seq<Step>, t: State, states: seq<State>)
    requires Path(s, steps, t, states)
    ensures Run(s, steps) == t
    decreases |steps|
  {
    if steps != [] {
      var n := |steps| - 1;
      var less, some := steps[..n], states[..n + 1];
      forall i: nat ensures StepAt(less, some, i) { assert StepAt(steps, states, i); }
      PathRuns(s, less, states[n], some);
      assert StepAt(steps, states, n);
    }
  }

  lemma LeadsRuns(s: State, steps: seq<Step>, t: State)
    requires Leads(s, steps, t)
    ensures Run(s, steps) == t
  {
    var states :| Path(s, steps, t, states);
    PathRuns(s, steps, t, states);
  }

  /** Nobody else is between acquire and release of a p->lock, or holds wait_lock. */
  ghost predicate Quiet(s: State, a: nat) {
    && (s.lock == None || s.lock == Some(a))
    && forall q: nat :: q < |s.procs| && q != a ==> Free(s, q)
  }

  ghost predicate Own(steps: seq<Step>, a: nat) {
    forall i :: 0 <= i < |steps| ==> steps[i] == Go(a, true)
  }

  function AtPc(s: State, a: nat, pc: Pc): State
    requires a < |s.procs|
  {
    s.(procs := s.procs[a := s.procs[a].(pc := pc)])
  }

  /** The slot c is freed and its pid returned to a. */
  function Taken(s: State, a: nat, c: nat): State
    requires a < |s.procs| && c < |s.procs|
  {
    s.(procs := s.procs[c := EMPTY][a := s.procs[a].(pc := Elsewhere)], lock := None, reaped := s.reaped + [s.procs[c].pid])
  }

  /** One turn of the scan. */
  lemma ScanOne(s: State, a: nat, i: nat, kids: bool)
    requires Quiet(s, a) && At(s, a, WaitScan(i, kids)) && s.procs[a].parent != Some(a) && i < |s.procs|
    ensures Leads(s, [Go(a, true)], if ZombieChild(s, a, i) then Taken(s, a, i) else AtPc(s, a, WaitScan(i + 1, kids || Child(s, a, i))))
  {
    LeadsOne(s, Go(a, true));
    if i != a { assert Free(s, i); }
  }

  lemma ScanEnd(s: State, a: nat, i: nat, kids: bool)
    requires At(s, a, WaitScan(i, kids)) && i >= |s.procs|
    ensures Leads(s, [Go(a, true)], AtPc(s, a, WaitDecide(kids)))
  {
    LeadsOne(s, Go(a, true));
  }

  lemma ScanBack(s: State, t: State, a: nat, pc: Pc)
    requires a < |s.procs| && t == AtPc(s, a, pc) && Quiet(s, a)
    ensures forall d: nat :: (Child(t, a, d) <==> Child(s, a, d)) && (ZombieChild(t, a, d) <==> ZombieChild(s, a, d))
    ensures Quiet(t, a) && (forall next: Pc :: AtPc(t, a, next) == AtPc(s, a, next))
    ensures forall c: nat :: c < |s.procs| && c != a ==> Taken(t, a, c) == Taken(s, a, c)
  {
    forall q: nat | q < |t.procs| && q != a ensures Free(t, q) { assert Free(s, q); }
  }

  /** The scan from slot i on. */
  lemma {:induction false} ScanRuns(s: State, a: nat, i: nat, kids: bool) returns (steps: seq<Step>, found: bool, c: nat, more: bool)
    requires Quiet(s, a) && At(s, a, WaitScan(i, kids)) && s.procs[a].parent != Some(a)
    ensures Own(steps, a)
    ensures found ==> i <= c && ZombieChild(s, a, c) && forall d: nat :: i <= d < c ==> !ZombieChild(s, a, d)
    ensures found ==> Leads(s, steps, Taken(s, a, c))
    ensures !found ==> forall d: nat :: i <= d ==> !ZombieChild(s, a, d)
    ensures !found ==> (more <==> kids || exists d: nat :: i <= d && Child(s, a, d))
    ensures !found ==> Leads(s, steps, AtPc(s, a, WaitDecide(more)))
    decreases if i < |s.procs| then |s.procs| - i else 0
  {
    var g := Go(a, true);
    steps := [g];
    if i >= |s.procs| {
      ScanEnd(s, a, i, kids);
      found, c, more := false, 0, kids;
    } else {
      ScanOne(s, a, i, kids);
      found, c, more := ZombieChild(s, a, i), i, kids;
      if !found {
        var on := kids || Child(s, a, i);
        var t := AtPc(s, a, WaitScan(i + 1, on));
        ScanBack(s, t, a, WaitScan(i + 1, on));
        var rest;
        rest, found, c, more := ScanRuns(t, a, i + 1, on);
        steps := [g] + rest;
        LeadsThen(s, [g], t, rest, if found then Taken(s, a, c) else AtPc(s, a, WaitDecide(more)));
      }
    }
  }

  /** Process a sleeps on its own channel, and wait_lock is free. */
  function Asleep(s: State, a: nat): State
    requires a < |s.procs|
  {
    s.(procs := s.procs[a := s.procs[a].(st := Sleeping, chan := Some(a), pc := WaitAsleep)], lock := None)
  }

  /** Where the process was does not matter to where it sleeps. */
  lemma AsleepSame(s: State, a: nat, pc: Pc)
    requires a < |s.procs|
    ensures Asleep(AtPc(s, a, pc), a) == Asleep(s, a) && AtPc(AtPc(s, a, pc), a, WaitDoze) == AtPc(s, a, WaitDoze)
  {
    assert AtPc(s, a, pc).procs[a := s.procs[a]] == s.procs;
    assert Asleep(AtPc(s, a, pc), a).procs == Asleep(s, a).procs;
    assert AtPc(AtPc(s, a, pc), a, WaitDoze).procs == AtPc(s, a, WaitDoze).procs;
  }

  lemma SwitchRuns(s: State, a: nat)
    requires At(s, a, WaitDoze) && s.lock == None
    ensures Leads(s, [Go(a, true)], Asleep(s, a))
  {
    LeadsOne(s, Go(a, true));
  }

  lemma HoldRuns(s: State, a: nat)
    requires At(s, a, WaitHold)
    ensures Leads(s, [Go(a, true), Go(a, true)], Asleep(s, a))
  {
    var g, t := Go(a, true), AtPc(s, a, WaitDoze).(lock := None);
    LeadsOne(s, g);
    SwitchRuns(t, a);
    AsleepSame(s, a, WaitDoze);
    LeadsThen(s, [g], t, [g], Asleep(s, a));
    assert [g] + [g] == [g, g];
  }

  lemma DozeRuns(s: State, a: nat) returns (steps: seq<Step>)
    requires a < |s.procs| && At(s, a, s.procs[a].pc) && Sleeps(s.procs[a].pc)
    requires s.procs[a].pc == WaitDoze ==> s.lock == None
    ensures Own(steps, a) && Leads(s, steps, Asleep(s, a))
  {
    var g, pc := Go(a, true), s.procs[a].pc;
    if pc == WaitDoze {
      SwitchRuns(s, a);
      steps := [g];
    } else if pc == WaitHold {
      HoldRuns(s, a);
      steps := [g, g];
    } else {
      var t := AtPc(s, a, WaitHold);
      LeadsOne(s, g);
      HoldRuns(t, a);
      AsleepSame(s, a, WaitHold);
      LeadsThen(s, [g], t, [g, g], Asleep(s, a));
      steps := [g] + [g, g];
    }
  }

  /** Back in user code, with wait_lock free. */
  function Back(s: State, a: nat): State
    requires a < |s.procs|
  {
    s.(procs := s.procs[a := s.procs[a].(pc := Elsewhere)], lock := None)
  }

  lemma BackSame(s: State, a: nat, pc: Pc)
    requires a < |s.procs|
    ensures Back(AtPc(s, a, pc), a) == Back(s, a)
  {
    assert Back(AtPc(s, a, pc), a).procs == Back(s, a).procs;
  }

  lemma DecideRuns(s: State, a: nat, kids: bool) returns (steps: seq<Step>)
    requires At(s, a, WaitDecide(kids)) && Quiet(s, a)
    ensures Own(steps, a) && Leads(s, steps, if kids && !s.procs[a].killed then Asleep(s, a) else Back(s, a))
  {
    var g := Go(a, true);
    LeadsOne(s, g);
    steps := [g];
    if kids && !s.procs[a].killed {
      var t := AtPc(s, a, WaitLock);
      var rest := DozeRuns(t, a);
      AsleepSame(s, a, WaitLock);
      LeadsThen(s, [g], t, rest, Asleep(s, a));
      steps := [g] + rest;
    }
  }

  /** A scan and what is decided then. */
  lemma LoopRuns(s: State, a: nat, i: nat, kids: bool) returns (steps: seq<Step>, found: bool, c: nat, more: bool)
    requires Quiet(s, a) && At(s, a, WaitScan(i, kids)) && s.procs[a].parent != Some(a)
    ensures Own(steps, a)
    ensures found ==> i <= c && ZombieChild(s, a, c) && forall d: nat :: i <= d < c ==> !ZombieChild(s, a, d)
    ensures !found ==> forall d: nat :: i <= d ==> !ZombieChild(s, a, d)
    ensures !found ==> (more <==> kids || exists d: nat :: i <= d && Child(s, a, d))
    ensures Leads(s, steps, if found then Taken(s, a, c) else if more && !s.procs[a].killed then Asleep(s, a) else Back(s, a))
  {
    steps, found, c, more := ScanRuns(s, a, i, kids);
    if !found {
      var t := AtPc(s, a, WaitDecide(more));
      ScanBack(s, t, a, WaitDecide(more));
      var rest := DecideRuns(t, a, more);
      AsleepSame(s, a, WaitDecide(more));
      BackSame(s, a, WaitDecide(more));
      LeadsThen(s, steps, t, rest, if more && !s.procs[a].killed then Asleep(s, a) else Back(s, a));
      steps := steps + rest;
    }
  }

  // ------------------------------------------------- what wait() comes to

  /** From s, where process a is in wait(), to t, where it has run on: it has the pid of its
      first zombie child; else it sleeps if it has a child and was not killed, or was past the
      test; else it has -1. */
  ghost predicate Ended(s: State, t: State, a: nat) {
    && a < |s.procs| && |t.procs| == |s.procs| && t.lock == None
    && if exists c: nat :: ZombieChild(s, a, c) then
         t.procs[a].pc == Elsewhere && t.procs[a].st == Runnable && exists c: nat :: FirstTaken(s, t, a, c)
       else
         && t.reaped == s.reaped && (forall q: nat :: q != a ==> SameSlot(s, t, q))
         && if Sleeps(s.procs[a].pc) || ((exists c: nat :: Child(s, a, c)) && !s.procs[a].killed)
            then t.procs[a].pc == WaitAsleep && t.procs[a].st == Sleeping && t.procs[a].chan == Some(a)
            else t.procs[a].pc == Elsewhere && t.procs[a].st == Runnable
  }

  /** The slot of another process: one that had entered sleep() may have switched away. */
  ghost predicate SameSlot(s: State, t: State, q: nat) {
    q < |s.procs| && q < |t.procs| ==>
      t.procs[q] == s.procs[q] || (s.procs[q].pc == WaitDoze && t.procs[q] == Switched(s.procs[q], q))
  }

  function Switched(p: Proc, q: nat): Proc {
    p.(st := Sleeping, chan := Some(q), pc := WaitAsleep)
  }

  ghost predicate FirstTaken(s: State, t: State, a: nat, c: nat) {
    && Collected(s, t, a, c) && (forall d: nat :: d < c ==> !ZombieChild(s, a, d))
    && forall q: nat :: q != a && q != c ==> SameSlot(s, t, q)
  }

  lemma EndedTaken(s: State, a: nat, c: nat)
    requires a < |s.procs| && s.procs[a].st == Runnable && a != c
    requires ZombieChild(s, a, c) && forall d: nat :: d < c ==> !ZombieChild(s, a, d)
    ensures Ended(s, Taken(s, a, c), a)
  {
    assert FirstTaken(s, Taken(s, a, c), a, c);
  }

  lemma ScanEnds(s: State, a: nat) returns (steps: seq<Step>, t: State)
    requires Inv(s) && KidOk(s, a) && Quiet(s, a) && a < |s.procs| && s.procs[a].st == Runnable && s.procs[a].pc.WaitScan?
    ensures Own(steps, a) && Leads(s, steps, t) && Ended(s, t, a)
  {
    var i, kids := s.procs[a].pc.i, s.procs[a].pc.kids;
    assert LocalOk(s, a) && PairOk(s, a, a);
    forall d: nat | Child(s, a, d) ensures kids || i <= d { assert PairOk(s, a, d); }
    forall d: nat | ZombieChild(s, a, d) ensures i <= d { assert PairOk(s, a, d); }
    var found, c, more;
    steps, found, c, more := LoopRuns(s, a, i, kids);
    if found {
      t := Taken(s, a, c);
      EndedTaken(s, a, c);
    } else {
      t := if more && !s.procs[a].killed then Asleep(s, a) else Back(s, a);
    }
  }

  /** From s to t process a has come to the head of the loop; nothing else that matters changed. */
  ghost predicate Comes(s: State, t: State, a: nat) {
    && a < |s.procs| && t == s.(procs := t.procs, lock := t.lock) && |t.procs| == |s.procs| && Quiet(t, a)
    && t.procs[a].st == s.procs[a].st == Runnable && t.procs[a].killed == s.procs[a].killed
    && t.procs[a].parent == s.procs[a].parent && Sleeps(t.procs[a].pc) == Sleeps(s.procs[a].pc)
    && forall q: nat :: q < |s.procs| && q != a ==>
         t.procs[q] == if s.procs[q].pc == WaitDoze then Switched(s.procs[q], q) else s.procs[q]
  }

  lemma EndedFrom(s: State, m: State, t: State, a: nat)
    requires Inv(s) && Comes(s, m, a) && Ended(m, t, a)
    ensures Ended(s, t, a)
  {
    forall c: nat | c < |s.procs| ensures (Child(m, a, c) <==> Child(s, a, c)) && (ZombieChild(m, a, c) <==> ZombieChild(s, a, c)) {
      assert LocalOk(s, c);
    }
    if c: nat :| ZombieChild(m, a, c) {
      var d: nat :| FirstTaken(m, t, a, d);
      assert LocalOk(s, d);
      forall q: nat | q != a && q != d ensures SameSlot(s, t, q) { assert SameSlot(m, t, q); }
      assert FirstTaken(s, t, a, d);
      assert ZombieChild(s, a, d);
    } else {
      forall q: nat | q != a ensures SameSlot(s, t, q) { assert SameSlot(m, t, q); }
      forall c: nat ensures !ZombieChild(s, a, c) { assert !ZombieChild(m, a, c); }
    }
  }

  /** A process goes on inside wait(), or another one that has entered sleep() switches away. */
  ghost predicate Mine(steps: seq<Step>, s: State, a: nat) {
    forall i :: 0 <= i < |steps| ==>
      steps[i] == Go(a, true) || (steps[i].Go? && steps[i].a < |s.procs| && s.procs[steps[i].a].pc == WaitDoze)
  }

  /** Slot q after the processes below k, but a, have switched away. */
  ghost predicate Calmed(s: State, t: State, a: nat, k: nat, q: nat) {
    q < |s.procs| && q < |t.procs| ==>
      t.procs[q] == if q < k && q != a && s.procs[q].pc == WaitDoze then Switched(s.procs[q], q) else s.procs[q]
  }

  ghost predicate Calm(s: State, t: State, a: nat, k: nat) {
    t == s.(procs := t.procs) && |t.procs| == |s.procs| && forall q: nat :: Calmed(s, t, a, k, q)
  }

  lemma SwitchOne(t: State, q: nat)
    requires At(t, q, WaitDoze)
    ensures Next(t, Go(q, true)) == t.(procs := t.procs[q := Switched(t.procs[q], q)])
  {
  }

  lemma LeadsEmpty(s: State)
    ensures Leads(s, [], s)
  {
    forall i: nat ensures StepAt([], [s], i) {}
    assert Path(s, [], s, [s]);
  }

  lemma {:induction false} CalmRuns(s: State, a: nat, k: nat) returns (steps: seq<Step>, t: State)
    requires k <= |s.procs| && forall p: nat :: LocalOk(s, p)
    ensures Mine(steps, s, a) && Leads(s, steps, t) && Calm(s, t, a, k)
    decreases k
  {
    if k == 0 {
      steps, t := [], s;
      LeadsEmpty(s);
      forall q: nat ensures Calmed(s, s, a, 0, q) {}
    } else {
      var q := k - 1;
      steps, t := CalmRuns(s, a, q);
      assert LocalOk(s, q) && Calmed(s, t, a, q, q);
      ghost var was := t;
      if q != a && s.procs[q].pc == WaitDoze {
        SwitchOne(t, q);
        LeadsOne(t, Go(q, true));
        LeadsThen(s, steps, t, [Go(q, true)], Next(t, Go(q, true)));
        steps, t := steps + [Go(q, true)], t.(procs := t.procs[q := Switched(t.procs[q], q)]);
      }
      forall p: nat ensures Calmed(s, t, a, k, p) { assert Calmed(s, was, a, q, p); }
    }
  }

  /** With wait_lock free or taken by a, nobody else holds a p->lock after that. */
  lemma CalmComes(s: State, t: State, a: nat)
    requires Inv(s) && Calm(s, t, a, |s.procs|) && a < |s.procs| && s.procs[a].st == Runnable && (s.lock == None || s.lock == Some(a))
    ensures Comes(s, t, a)
  {
    assert Calmed(s, t, a, |s.procs|, a);
    forall q: nat | q < |s.procs| && q != a
      ensures t.procs[q] == (if s.procs[q].pc == WaitDoze then Switched(s.procs[q], q) else s.procs[q]) && Free(t, q)
    {
      assert Calmed(s, t, a, |s.procs|, q) && LocalOk(s, q);
    }
  }

  lemma {:induction false} LeadsInv(s: State, steps: seq<Step>, t: State, states: seq<State>, a: nat)
    requires Path(s, steps, t, states) && Inv(s) && KidOk(s, a)
    ensures Inv(t) && KidOk(t, a)
    decreases |steps|
  {
    if steps != [] {
      var n := |steps| - 1;
      var less, some := steps[..n], states[..n + 1];
      forall i: nat ensures StepAt(less, some, i) { assert StepAt(steps, states, i); }
      LeadsInv(s, less, states[n], some, a);
      assert StepAt(steps, states, n);
      NextKeeps(states[n], steps[n]);
      KidStep(states[n], steps[n], a);
    }
  }

  lemma LeadsKeeps(s: State, steps: seq<Step>, t: State, a: nat)
    requires Leads(s, steps, t) && Inv(s) && KidOk(s, a)
    ensures Inv(t) && KidOk(t, a)
  {
    var states :| Path(s, steps, t, states);
    LeadsInv(s, steps, t, states, a);
  }

  /** At the head of the loop wait_lock is taken. */
  lemma WantRuns(s: State, a: nat) returns (t: State)
    requires At(s, a, WaitWant) && s.lock == None && Quiet(s, a)
    ensures Leads(s, [Go(a, true)], t) && t == AtPc(s, a, WaitScan(0, false)).(lock := Some(a)) && Quiet(t, a)
  {
    LeadsOne(s, Go(a, true));
    t := AtPc(s, a, WaitScan(0, false)).(lock := Some(a));
    forall q: nat | q < |t.procs| && q != a ensures Free(t, q) { assert Free(s, q); }
  }

  lemma WantComes(s: State, t: State, a: nat)
    requires Quiet(s, a) && At(s, a, WaitWant) && s.procs[a].st == Runnable && Quiet(t, a)
    requires t == AtPc(s, a, WaitScan(0, false)).(lock := Some(a)) && forall q: nat :: q < |s.procs| && q != a ==> s.procs[q].pc != WaitDoze
    ensures Comes(s, t, a)
  {
  }

  lemma QuietNoDoze(s: State, a: nat)
    requires Quiet(s, a)
    ensures forall q: nat :: q < |s.procs| && q != a ==> s.procs[q].pc != WaitDoze
  {
    forall q: nat | q < |s.procs| && q != a ensures s.procs[q].pc != WaitDoze { assert Free(s, q); }
  }

  lemma WantEnds(s: State, a: nat) returns (steps: seq<Step>, t: State)
    requires Inv(s) && KidOk(s, a) && Quiet(s, a) && At(s, a, WaitWant) && s.procs[a].st == Runnable
    ensures Own(steps, a) && Leads(s, steps, t) && Ended(s, t, a)
  {
    assert LocalOk(s, a);
    var g := Go(a, true);
    var m := WantRuns(s, a);
    LeadsKeeps(s, [g], m, a);
    var rest;
    rest, t := ScanEnds(m, a);
    LeadsThen(s, [g], m, rest, t);
    steps := [g] + rest;
    QuietNoDoze(s, a);
    WantComes(s, m, a);
    EndedFrom(s, m, t, a);
  }

  lemma ResumeRuns(s: State, a: nat) returns (t: State)
    requires At(s, a, WaitAsleep) && s.procs[a].st == Runnable && Quiet(s, a)
    ensures Leads(s, [Go(a, true)], t) && Comes(s, t, a) && t.procs[a].pc == WaitWant && t.lock == s.lock
  {
    LeadsOne(s, Go(a, true));
    t := Next(s, Go(a, true));
    forall q: nat | q < |t.procs| && q != a ensures Free(t, q) { assert Free(s, q); }
    QuietNoDoze(s, a);
  }

  lemma ResumeEnds(s: State, a: nat) returns (steps: seq<Step>, t: State)
    requires Inv(s) && KidOk(s, a) && Quiet(s, a) && At(s, a, WaitAsleep) && s.procs[a].st == Runnable
    ensures Own(steps, a) && Leads(s, steps, t) && Ended(s, t, a)
  {
    var g := Go(a, true);
    var m := ResumeRuns(s, a);
    LeadsKeeps(s, [g], m, a);
    var rest;
    rest, t := WantEnds(m, a);
    LeadsThen(s, [g], m, rest, t);
    steps := [g] + rest;
    EndedFrom(s, m, t, a);
  }

  /** Past the scan there is no zombie child. */
  lemma NoZombie(s: State, a: nat)
    requires Inv(s) && a < |s.procs| && (s.procs[a].pc.WaitDecide? || Sleeps(s.procs[a].pc))
    requires s.lock == None || s.lock == Some(a)
    ensures forall c: nat :: !ZombieChild(s, a, c)
  {
    assert LocalOk(s, a);
    forall c: nat ensures !ZombieChild(s, a, c) { assert PairOk(s, a, c); }
  }

  lemma LateEnds(s: State, a: nat) returns (steps: seq<Step>, t: State)
    requires Inv(s) && KidOk(s, a) && Quiet(s, a) && a < |s.procs| && s.procs[a].st == Runnable
    requires s.procs[a].pc.WaitDecide? || Sleeps(s.procs[a].pc)
    ensures Own(steps, a) && Leads(s, steps, t) && Ended(s, t, a)
  {
    NoZombie(s, a);
    assert LocalOk(s, a);
    if Sleeps(s.procs[a].pc) {
      steps := DozeRuns(s, a);
      t := Asleep(s, a);
    } else {
      var kids := s.procs[a].pc.kids;
      forall c: nat | Child(s, a, c) ensures kids { assert PairOk(s, a, c); }
      steps := DecideRuns(s, a, kids);
      t := if kids && !s.procs[a].killed then Asleep(s, a) else Back(s, a);
    }
  }

  lemma QuietEnds(s: State, a: nat) returns (steps: seq<Step>, t: State)
    requires Inv(s) && KidOk(s, a) && Quiet(s, a) && a < |s.procs| && s.procs[a].st == Runnable && InWait(s.procs[a].pc)
    ensures Own(steps, a) && Leads(s, steps, t) && Ended(s, t, a)
  {
    var pc := s.procs[a].pc;
    if pc == WaitWant {
      steps, t := WantEnds(s, a);
    } else if pc == WaitAsleep {
      steps, t := ResumeEnds(s, a);
    } else if pc.WaitScan? {
      steps, t := ScanEnds(s, a);
    } else {
      steps, t := LateEnds(s, a);
    }
  }

  /** In every interleaving: a process in wait() that finds wait_lock free or has it comes, when
      it runs on, to exactly the end that `Ended` says.  The only steps of others it needs are
      those of processes that hold their own p->lock in sleep(). */
  lemma WaitEnds(n: nat, before: seq<Step>, a: nat) returns (steps: seq<Step>)
    requires n > 0
    requires var s := Run(Boot(n), before);
             a < |s.procs| && s.procs[a].st == Runnable && InWait(s.procs[a].pc) && (s.lock == None || s.lock == Some(a))
    ensures Mine(steps, Run(Boot(n), before), a)
    ensures Ended(Run(Boot(n), before), Run(Run(Boot(n), before), steps), a)
  {
    var s := Run(Boot(n), before);
    RunInv(n, before);
    SleeperHasChild(n, before, a);
    var t;
    steps, t := FreeEnds(s, a);
    LeadsRuns(s, steps, t);
  }

  lemma FreeEnds(s: State, a: nat) returns (steps: seq<Step>, t: State)
    requires Inv(s) && KidOk(s, a) && a < |s.procs| && s.procs[a].st == Runnable && InWait(s.procs[a].pc)
    requires s.lock == None || s.lock == Some(a)
    ensures Mine(steps, s, a) && Leads(s, steps, t) && Ended(s, t, a)
  {
    var first, m := CalmRuns(s, a, |s.procs|);
    CalmComes(s, m, a);
    LeadsKeeps(s, first, m, a);
    assert Calmed(s, m, a, |s.procs|, a);
    var rest;
    rest, t := QuietEnds(m, a);
    LeadsThen(s, first, m, rest, t);
    steps := first + rest;
    EndedFrom(s, m, t, a);
  }

  lemma EndedCall(s: State, t: State, a: nat)
    requires At(s, a, Elsewhere) && Ended(AtPc(s, a, WaitWant), t, a)
    ensures Ended(s, t, a)
  {
    var m := AtPc(s, a, WaitWant);
    assert forall c: nat :: (Child(m, a, c) <==> Child(s, a, c)) && (ZombieChild(m, a, c) <==> ZombieChild(s, a, c));
    if c: nat :| ZombieChild(m, a, c) {
      var d: nat :| FirstTaken(m, t, a, d);
      forall q: nat | q != a && q != d ensures SameSlot(s, t, q) { assert SameSlot(m, t, q); }
      assert FirstTaken(s, t, a, d);
      assert ZombieChild(s, a, d);
    } else {
      forall q: nat | q != a ensures SameSlot(s, t, q) { assert SameSlot(m, t, q); }
      forall c: nat ensures !ZombieChild(s, a, c) { assert !ZombieChild(m, a, c); }
    }
  }

  lemma WaitCall(s: State, a: nat) returns (steps: seq<Step>, t: State)
    requires Inv(s) && KidOk(s, a) && At(s, a, Elsewhere) && s.procs[a].st == Runnable && s.lock == None
    ensures Mine(steps, s, a) && Leads(s, [Wait(a)] + steps, t) && Ended(s, t, a)
  {
    var m := AtPc(s, a, WaitWant);
    LeadsOne(s, Wait(a));
    assert Next(s, Wait(a)) == m;
    LeadsKeeps(s, [Wait(a)], m, a);
    steps, t := FreeEnds(m, a);
    LeadsThen(s, [Wait(a)], m, steps, t);
    EndedCall(s, t, a);
  }

  /** The same for a whole call of wait(). */
  lemma WaitCalled(n: nat, before: seq<Step>, a: nat) returns (steps: seq<Step>)
    requires n > 0
    requires var s := Run(Boot(n), before); At(s, a, Elsewhere) && s.procs[a].st == Runnable && s.lock == None
    ensures Mine(steps, Run(Boot(n), before), a)
    ensures Ended(Run(Boot(n), before), Run(Run(Boot(n), before), [Wait(a)] + steps), a)
  {
    var s := Run(Boot(n), before);
    RunInv(n, before);
    SleeperHasChild(n, before, a);
    var t;
    steps, t := WaitCall(s, a);
    LeadsRuns(s, [Wait(a)] + steps, t);
  }

  // ------------------------------------------------- what fork() comes to

  /** Slot c holds a new runnable child of a with the next pid, and nothing else changed. */
  predicate Forked(s: State, t: State, a: nat, c: nat) {
    && a < |s.procs| && c < |s.procs| && |t.procs| == |s.procs|
    && t == s.(procs := s.procs[c := t.procs[c]], nextpid := s.nextpid + 1)
    && t.procs[c].st == Runnable && t.procs[c].parent == Some(a) && t.procs[c].pid == s.nextpid && t.procs[c].pc == Elsewhere
    && t.procs[c].killed == s.procs[c].killed
  }

  lemma ForkFirst(s: State, a: nat, c: nat)
    requires At(s, a, Elsewhere) && c < |s.procs| && s.procs[c].st == Unused && s.lock == None && a != c
    ensures var p := Proc(Used, None, None, s.nextpid, s.procs[c].killed, Elsewhere, a);
            var t := s.(procs := s.procs[c := p][a := s.procs[a].(pc := ForkHold(c))], nextpid := s.nextpid + 1, lock := Some(a));
            Leads(s, [Fork(a, c), Go(a, true)], t)
  {
    var p := Proc(Used, None, None, s.nextpid, s.procs[c].killed, Elsewhere, a);
    var m := s.(procs := s.procs[c := p][a := s.procs[a].(pc := ForkWant(c))], nextpid := s.nextpid + 1);
    var t := s.(procs := s.procs[c := p][a := s.procs[a].(pc := ForkHold(c))], nextpid := s.nextpid + 1, lock := Some(a));
    LeadsOne(s, Fork(a, c));
    LeadsOne(m, Go(a, true));
    assert Next(m, Go(a, true)).procs == t.procs;
    LeadsThen(s, [Fork(a, c)], m, [Go(a, true)], t);
    assert [Fork(a, c)] + [Go(a, true)] == [Fork(a, c), Go(a, true)];
  }

  lemma ForkLast(s: State, a: nat, c: nat)
    requires At(s, a, ForkHold(c)) && c < |s.procs| && a != c
    ensures var t := s.(procs := s.procs[c := s.procs[c].(parent := Some(a), st := Runnable)][a := s.procs[a].(pc := Elsewhere)], lock := None);
            Leads(s, [Go(a, true), Go(a, true)], t)
  {
    var g := Go(a, true);
    var m := s.(procs := s.procs[c := s.procs[c].(parent := Some(a))][a := s.procs[a].(pc := ForkReady(c))], lock := None);
    var t := s.(procs := s.procs[c := s.procs[c].(parent := Some(a), st := Runnable)][a := s.procs[a].(pc := Elsewhere)], lock := None);
    LeadsOne(s, g);
    LeadsOne(m, g);
    assert Next(m, g).procs == t.procs;
    LeadsThen(s, [g], m, [g], t);
    assert [g] + [g] == [g, g];
  }

  lemma ForkLeads(s: State, a: nat, c: nat) returns (t: State)
    requires At(s, a, Elsewhere) && c < |s.procs| && s.procs[c].st == Unused && s.lock == None && a != c
    ensures Leads(s, [Fork(a, c), Go(a, true), Go(a, true), Go(a, true)], t) && Forked(s, t, a, c)
  {
    var g, p := Go(a, true), Proc(Used, None, None, s.nextpid, s.procs[c].killed, Elsewhere, a);
    var m := s.(procs := s.procs[c := p][a := s.procs[a].(pc := ForkHold(c))], nextpid := s.nextpid + 1, lock := Some(a));
    ForkFirst(s, a, c);
    ForkLast(m, a, c);
    t := m.(procs := m.procs[c := p.(parent := Some(a), st := Runnable)][a := s.procs[a]], lock := None);
    assert m.procs[a].(pc := Elsewhere) == s.procs[a];
    LeadsThen(s, [Fork(a, c), g], m, [g, g], t);
    assert [Fork(a, c), g] + [g, g] == [Fork(a, c), g, g, g];
    assert t.procs == s.procs[c := t.procs[c]];
  }

  /** A fork that finds a free slot and wait_lock free makes a runnable child. */
  lemma ForkEnds(n: nat, before: seq<Step>, a: nat, c: nat)
    requires n > 0
    requires var s := Run(Boot(n), before);
             At(s, a, Elsewhere) && c < |s.procs| && s.procs[c].st == Unused && s.lock == None
    ensures var s := Run(Boot(n), before); Forked(s, Run(s, [Fork(a, c), Go(a, true), Go(a, true), Go(a, true)]), a, c)
  {
    var s := Run(Boot(n), before);
    RunInv(n, before);
    assert LocalOk(s, a) && LocalOk(s, c);
    var t := ForkLeads(s, a, c);
    LeadsRuns(s, [Fork(a, c), Go(a, true), Go(a, true), Go(a, true)], t);
  }

  /** wait() of process a with a running child, up to the entry of sleep(). */
  lemma ToTheSleep(s: State, a: nat, c: nat) returns (steps: seq<Step>)
    requires At(s, a, Elsewhere) && s.lock == None && Quiet(s, a) && s.procs[a].parent != Some(a) && !s.procs[a].killed
    requires Child(s, a, c) && forall d: nat :: !ZombieChild(s, a, d)
    ensures Leads(s, steps, AtPc(s, a, WaitLock).(lock := Some(a)))
  {
    var g, w := Go(a, true), AtPc(s, a, WaitWant);
    LeadsOne(s, Wait(a));
    assert Next(s, Wait(a)) == w;
    ScanBack(s, w, a, WaitWant);
    var m := WantRuns(w, a);
    ScanBack(w, AtPc(w, a, WaitScan(0, false)), a, WaitScan(0, false));
    forall d: nat ensures !ZombieChild(m, a, d) { assert !ZombieChild(s, a, d); }
    assert Child(m, a, c);
    var rest, found, e, more := ScanRuns(m, a, 0, false);
    var u, t := AtPc(m, a, WaitDecide(true)), AtPc(s, a, WaitLock).(lock := Some(a));
    LeadsOne(u, g);
    assert Next(u, g).procs == t.procs;
    LeadsThen(m, rest, u, [g], t);
    LeadsThen(w, [g], m, rest + [g], t);
    LeadsThen(s, [Wait(a)], w, [g] + (rest + [g]), t);
    steps := [Wait(a)] + ([g] + (rest + [g]));
  }

  /** A kill between the test in wait() and the sleep does not keep init from sleeping. */
  lemma KilledAsleep() returns (steps: seq<Step>)
    ensures var s := Run(Boot(2), steps); |s.procs| == 2 && s.procs[0].killed && s.procs[0].st == Sleeping && s.procs[0].pc == WaitAsleep
  {
    var b, f := Boot(2), [Fork(0, 1), Go(0, true), Go(0, true), Go(0, true)];
    var s := ForkLeads(b, 0, 1);
    assert s.procs[0] == b.procs[0] && s.procs[1].parent == Some(0);
    forall q: nat | q < |s.procs| && q != 0 ensures Free(s, q) {}
    forall d: nat ensures !ZombieChild(s, 0, d) {}
    var w := ToTheSleep(s, 0, 1);
    var t := AtPc(s, 0, WaitLock).(lock := Some(0));
    LeadsOne(t, Kill(0));
    var k := t.(procs := t.procs[0 := t.procs[0].(killed := true)]);
    assert Next(t, Kill(0)) == k;
    var z := DozeRuns(k, 0);
    LeadsThen(b, f, s, w, t);
    LeadsThen(b, f + w, t, [Kill(0)], k);
    LeadsThen(b, f + w + [Kill(0)], k, z, Asleep(k, 0));
    steps := f + w + [Kill(0)] + z;
    LeadsRuns(b, steps, Asleep(k, 0));
  }

  // ------------------------------------------------- what exit() comes to

  /** Slot q after wakeup(chan) by a at the slots from j on. */
  ghost predicate RousedAt(s: State, t: State, a: nat, j: nat, chan: Opt, q: nat) {
    q < |s.procs| && q < |t.procs| && q != a ==>
      t.procs[q] == if j <= q && s.procs[q].st == Sleeping && s.procs[q].chan == chan
                    then s.procs[q].(st := Runnable) else s.procs[q]
  }

  ghost predicate Roused(s: State, t: State, a: nat, j: nat, chan: Opt, pc: Pc) {
    && a < |s.procs| && t == s.(procs := t.procs) && |t.procs| == |s.procs| && t.procs[a] == s.procs[a].(pc := pc)
    && forall q: nat :: RousedAt(s, t, a, j, chan, q)
  }

  lemma QuietRoused(s: State, t: State, a: nat, j: nat, chan: Opt, pc: Pc)
    requires Quiet(s, a) && Roused(s, t, a, j, chan, pc)
    ensures Quiet(t, a)
  {
    forall q: nat | q < |t.procs| && q != a ensures Free(t, q) { assert Free(s, q) && RousedAt(s, t, a, j, chan, q); }
  }

  /** One slot of a wakeup. */
  lemma WakeOne(s: State, a: nat, j: nat, chan: Opt, pc: Pc) returns (t: State)
    requires a < |s.procs| && j < |s.procs| && Quiet(s, a)
    ensures t == if j == a then AtPc(s, a, pc) else Wake(s, a, j, chan, pc)
    ensures |t.procs| == |s.procs| && t == s.(procs := t.procs) && t.procs[a] == s.procs[a].(pc := pc) && Quiet(t, a)
    ensures forall q: nat :: q < |s.procs| && q != a ==>
              t.procs[q] == if q == j && s.procs[q].st == Sleeping && s.procs[q].chan == chan
                            then s.procs[q].(st := Runnable) else s.procs[q]
  {
    t := if j == a then AtPc(s, a, pc) else Wake(s, a, j, chan, pc);
    forall q: nat | q < |t.procs| && q != a ensures Free(t, q) { assert Free(s, q); }
  }

  lemma RousedOn(s: State, m: State, t: State, a: nat, j: nat, chan: Opt, pc: Pc)
    requires a < |s.procs| && |m.procs| == |s.procs| && m == s.(procs := m.procs)
    requires m.procs[a] == s.procs[a].(pc := m.procs[a].pc) && Roused(m, t, a, j + 1, chan, pc)
    requires forall q: nat :: q < |s.procs| && q != a ==>
               m.procs[q] == if q == j && s.procs[q].st == Sleeping && s.procs[q].chan == chan
                             then s.procs[q].(st := Runnable) else s.procs[q]
    ensures Roused(s, t, a, j, chan, pc)
  {
    forall q: nat ensures RousedAt(s, t, a, j, chan, q) { assert RousedAt(m, t, a, j + 1, chan, q); }
  }

  lemma RousedNone(s: State, a: nat, j: nat, chan: Opt, pc: Pc)
    requires a < |s.procs| && j >= |s.procs|
    ensures Roused(s, AtPc(s, a, pc), a, j, chan, pc)
  {
    forall q: nat ensures RousedAt(s, AtPc(s, a, pc), a, j, chan, q) {}
  }

  lemma InitStep(s: State, a: nat, i: nat, j: nat)
    requires At(s, a, ExitWakeInit(i, j)) && Quiet(s, a)
    ensures Leads(s, [Go(a, true)],
              if j >= |s.procs| then AtPc(s, a, ExitReparent(i + 1))
              else if j == a then AtPc(s, a, ExitWakeInit(i, j + 1))
              else Wake(s, a, j, Some(s.init), ExitWakeInit(i, j + 1)))
  {
    LeadsOne(s, Go(a, true));
    if j < |s.procs| && j != a { assert Free(s, j); }
  }

  lemma {:induction false} InitRuns(s: State, a: nat, i: nat, j: nat) returns (steps: seq<Step>, t: State)
    requires At(s, a, ExitWakeInit(i, j)) && Quiet(s, a)
    ensures Own(steps, a) && Leads(s, steps, t) && Roused(s, t, a, j, Some(s.init), ExitReparent(i + 1))
    decreases if j < |s.procs| then |s.procs| - j else 0
  {
    var g := Go(a, true);
    InitStep(s, a, i, j);
    steps := [g];
    if j >= |s.procs| {
      t := AtPc(s, a, ExitReparent(i + 1));
      RousedNone(s, a, j, Some(s.init), ExitReparent(i + 1));
    } else {
      var m := WakeOne(s, a, j, Some(s.init), ExitWakeInit(i, j + 1));
      var rest;
      rest, t := InitRuns(m, a, i, j + 1);
      LeadsThen(s, [g], m, rest, t);
      steps := [g] + rest;
      RousedOn(s, m, t, a, j, Some(s.init), ExitReparent(i + 1));
    }
  }

  lemma ParentStep(s: State, a: nat, j: nat)
    requires At(s, a, ExitWakeParent(j)) && Quiet(s, a)
    ensures Leads(s, [Go(a, true)],
              if j >= |s.procs| then AtPc(s, a, ExitMark)
              else if j == a then AtPc(s, a, ExitWakeParent(j + 1))
              else Wake(s, a, j, s.procs[a].parent, ExitWakeParent(j + 1)))
  {
    LeadsOne(s, Go(a, true));
    if j < |s.procs| && j != a { assert Free(s, j); }
  }

  lemma {:induction false} ParentRuns(s: State, a: nat, j: nat) returns (steps: seq<Step>, t: State)
    requires At(s, a, ExitWakeParent(j)) && Quiet(s, a)
    ensures Own(steps, a) && Leads(s, steps, t) && Roused(s, t, a, j, s.procs[a].parent, ExitMark)
    decreases if j < |s.procs| then |s.procs| - j else 0
  {
    var g, chan := Go(a, true), s.procs[a].parent;
    ParentStep(s, a, j);
    steps := [g];
    if j >= |s.procs| {
      t := AtPc(s, a, ExitMark);
      RousedNone(s, a, j, chan, ExitMark);
    } else {
      var m := WakeOne(s, a, j, chan, ExitWakeParent(j + 1));
      var rest;
      rest, t := ParentRuns(m, a, j + 1);
      LeadsThen(s, [g], m, rest, t);
      steps := [g] + rest;
      RousedOn(s, m, t, a, j, chan, ExitMark);
    }
  }

  /** Slot q after reparent() by a from slot i on: children have gone to init, which is awake if
      there was one (`any`). */
  ghost predicate HandedAt(s: State, t: State, a: nat, i: nat, any: bool, q: nat) {
    q < |s.procs| && q < |t.procs| && q != a ==>
      var was, now := s.procs[q], t.procs[q];
      && now == was.(parent := if i <= q && was.parent == Some(a) then Some(s.init) else was.parent, st := now.st)
      && (now.st == was.st || (was.st == Sleeping && now.st == Runnable && was.chan == Some(s.init)))
      && (any ==> !(now.st == Sleeping && now.chan == Some(s.init)))
  }

  ghost predicate Handed(s: State, t: State, a: nat, i: nat, any: bool, pc: Pc) {
    && a < |s.procs| && t == s.(procs := t.procs) && |t.procs| == |s.procs| && t.procs[a] == s.procs[a].(pc := pc)
    && forall q: nat :: HandedAt(s, t, a, i, any, q)
  }

  lemma ReparentStep(s: State, a: nat, i: nat)
    requires At(s, a, ExitReparent(i))
    ensures Leads(s, [Go(a, true)],
              if i >= |s.procs| then AtPc(s, a, ExitWakeParent(0))
              else if Child(s, a, i) then Adopt(s, a, i)
              else AtPc(s, a, ExitReparent(i + 1)))
  {
    LeadsOne(s, Go(a, true));
  }

  lemma AdoptQuiet(s: State, a: nat, i: nat)
    requires At(s, a, ExitReparent(i)) && Child(s, a, i) && i != a && Quiet(s, a)
    ensures var m := Adopt(s, a, i);
            && |m.procs| == |s.procs| && m == s.(procs := m.procs) && At(m, a, ExitWakeInit(i, 0)) && Quiet(m, a)
            && m.procs[a] == s.procs[a].(pc := ExitWakeInit(i, 0))
            && forall q: nat :: q < |s.procs| && q != a ==>
                 m.procs[q] == if q == i then s.procs[q].(parent := Some(s.init)) else s.procs[q]
  {
    var m := Adopt(s, a, i);
    forall q: nat | q < |m.procs| && q != a ensures Free(m, q) { assert Free(s, q); }
  }

  /** One child goes to init, and init is woken. */
  ghost predicate Adopted(s: State, u: State, a: nat, i: nat) {
    && Child(s, a, i) && i != a && a < |s.procs| && |u.procs| == |s.procs| && u == s.(procs := u.procs)
    && u.procs[a] == s.procs[a].(pc := ExitReparent(i + 1))
    && forall q: nat :: AdoptedAt(s, u, a, i, q)
  }

  ghost predicate AdoptedAt(s: State, u: State, a: nat, i: nat, q: nat) {
    q < |s.procs| && q < |u.procs| && q != a ==>
      u.procs[q] == s.procs[q].(parent := if q == i then Some(s.init) else s.procs[q].parent,
        st := if s.procs[q].st == Sleeping && s.procs[q].chan == Some(s.init) then Runnable else s.procs[q].st)
  }

  lemma AdoptRuns(s: State, a: nat, i: nat) returns (steps: seq<Step>, u: State)
    requires At(s, a, ExitReparent(i)) && Child(s, a, i) && i != a && Quiet(s, a)
    ensures Own(steps, a) && Leads(s, steps, u) && Adopted(s, u, a, i) && Quiet(u, a)
  {
    var g, m := Go(a, true), Adopt(s, a, i);
    ReparentStep(s, a, i);
    AdoptQuiet(s, a, i);
    steps, u := InitRuns(m, a, i, 0);
    QuietRoused(m, u, a, 0, Some(s.init), ExitReparent(i + 1));
    LeadsThen(s, [g], m, steps, u);
    steps := [g] + steps;
    forall q: nat ensures AdoptedAt(s, u, a, i, q) { assert RousedAt(m, u, a, 0, Some(s.init), q); }
  }

  lemma HandedAdopt(s: State, u: State, t: State, a: nat, i: nat, any: bool, pc: Pc)
    requires Adopted(s, u, a, i) && Handed(u, t, a, i + 1, any, pc)
    ensures Handed(s, t, a, i, true, pc)
  {
    forall q: nat ensures HandedAt(s, t, a, i, true, q) {
      assert AdoptedAt(s, u, a, i, q) && HandedAt(u, t, a, i + 1, any, q);
    }
  }

  lemma HandedSkip(s: State, t: State, a: nat, i: nat, any: bool, pc: Pc)
    requires a < |s.procs| && !Child(s, a, i) && Handed(AtPc(s, a, ExitReparent(i + 1)), t, a, i + 1, any, pc)
    ensures Handed(s, t, a, i, any, pc)
  {
    forall q: nat ensures HandedAt(s, t, a, i, any, q) { assert HandedAt(AtPc(s, a, ExitReparent(i + 1)), t, a, i + 1, any, q); }
  }

  lemma HandedNone(s: State, a: nat, i: nat, pc: Pc)
    requires a < |s.procs| && i >= |s.procs|
    ensures Handed(s, AtPc(s, a, pc), a, i, false, pc)
  {
    forall q: nat ensures HandedAt(s, AtPc(s, a, pc), a, i, false, q) {}
  }

  lemma {:induction false} ReparentRuns(s: State, a: nat, i: nat) returns (steps: seq<Step>, t: State, any: bool)
    requires At(s, a, ExitReparent(i)) && Quiet(s, a) && s.procs[a].parent != Some(a)
    ensures Own(steps, a) && Leads(s, steps, t) && Handed(s, t, a, i, any, ExitWakeParent(0)) && Quiet(t, a)
    ensures any <==> exists c: nat :: i <= c && Child(s, a, c)
    decreases if i < |s.procs| then |s.procs| - i else 0
  {
    var g := Go(a, true);
    ReparentStep(s, a, i);
    if i >= |s.procs| {
      steps, t, any := [g], AtPc(s, a, ExitWakeParent(0)), false;
      ScanBack(s, t, a, ExitWakeParent(0));
      HandedNone(s, a, i, ExitWakeParent(0));
    } else if Child(s, a, i) {
      var x, u := AdoptRuns(s, a, i);
      var y;
      y, t, any := ReparentRuns(u, a, i + 1);
      LeadsThen(s, x, u, y, t);
      steps := x + y;
      HandedAdopt(s, u, t, a, i, any, ExitWakeParent(0));
      any := true;
    } else {
      var m := AtPc(s, a, ExitReparent(i + 1));
      ScanBack(s, m, a, ExitReparent(i + 1));
      var y;
      y, t, any := ReparentRuns(m, a, i + 1);
      LeadsThen(s, [g], m, y, t);
      steps := [g] + y;
      HandedSkip(s, t, a, i, any, ExitWakeParent(0));
    }
  }

  /** The slot q when a has exited: its children are init's, its parent and, if it had children,
      init do not sleep in wait(). */
  ghost predicate LeftAt(s: State, t: State, a: nat, q: nat) {
    a < |s.procs| && q < |s.procs| && q < |t.procs| && q != a ==>
      var was, now := s.procs[q], t.procs[q];
      && now.parent == (if was.parent == Some(a) then Some(s.init) else was.parent)
      && now.pid == was.pid && now.killed == was.killed
      && (now.st == was.st || (was.st == Sleeping && now.st == Runnable) || (was.pc == WaitDoze && now.pc == WaitAsleep))
      && (now.st == Sleeping && now.pc == WaitAsleep ==>
            s.procs[a].parent != Some(q) && (q == s.init ==> forall c: nat :: !Child(s, a, c)))
  }

  ghost predicate Exited(s: State, t: State, a: nat) {
    && a < |s.procs| && |t.procs| == |s.procs| && t == s.(procs := t.procs, lock := None)
    && t.procs[a] == s.procs[a].(st := Zombie, pc := Dead)
    && forall q: nat :: LeftAt(s, t, a, q)
  }

  /** Marking itself a zombie and leaving. */
  lemma MarkRuns(s: State, a: nat) returns (t: State)
    requires At(s, a, ExitMark)
    ensures Leads(s, [Go(a, true), Go(a, true)], t)
    ensures t == s.(procs := s.procs[a := s.procs[a].(st := Zombie, pc := Dead)], lock := None)
  {
    var g := Go(a, true);
    var m := s.(procs := s.procs[a := s.procs[a].(st := Zombie, pc := ExitRelease)]);
    LeadsOne(s, g);
    LeadsOne(m, g);
    t := s.(procs := s.procs[a := s.procs[a].(st := Zombie, pc := Dead)], lock := None);
    assert Next(m, g).procs == t.procs;
    LeadsThen(s, [g], m, [g], t);
    assert [g] + [g] == [g, g];
  }

  lemma ExitJoin(s: State, m: State, h: State, r: State, t: State, a: nat, any: bool)
    requires Inv(s) && Comes(s, m, a) && m.procs[a] == s.procs[a] && a != s.init && s.procs[a].parent.Some?
    requires Handed(m.(lock := Some(a)), h, a, 0, any, ExitWakeParent(0)) && (any <==> exists c: nat :: Child(s, a, c))
    requires Roused(h, r, a, 0, s.procs[a].parent, ExitMark)
    requires t == r.(procs := r.procs[a := r.procs[a].(st := Zombie, pc := Dead)], lock := None)
    ensures Exited(s, t, a)
  {
    forall q: nat ensures LeftAt(s, t, a, q) {
      assert LocalOk(s, q) && HandedAt(m.(lock := Some(a)), h, a, 0, any, q) && RousedAt(h, r, a, 0, s.procs[a].parent, q);
    }
  }

  /** exit() with wait_lock free and nobody else holding a p->lock. */
  lemma QuietExit(s: State, a: nat) returns (steps: seq<Step>, h: State, r: State, t: State, any: bool)
    requires At(s, a, ExitWant) && s.lock == None && Quiet(s, a) && s.procs[a].parent != Some(a)
    ensures Own(steps, a) && Leads(s, steps, t)
    ensures Handed(s.(lock := Some(a)), h, a, 0, any, ExitWakeParent(0)) && (any <==> exists c: nat :: Child(s, a, c))
    ensures Roused(h, r, a, 0, s.procs[a].parent, ExitMark)
    ensures t == r.(procs := r.procs[a := r.procs[a].(st := Zombie, pc := Dead)], lock := None)
  {
    var g, l := Go(a, true), s.(lock := Some(a), procs := s.procs[a := s.procs[a].(pc := ExitReparent(0))]);
    LeadsOne(s, g);
    ScanBack(s, AtPc(s, a, ExitReparent(0)), a, ExitReparent(0));
    forall q: nat | q < |l.procs| && q != a ensures Free(l, q) { assert Free(s, q); }
    var x;
    x, h, any := ReparentRuns(l, a, 0);
    LockedHanded(s, l, h, a, any);
    var y;
    y, r := ParentRuns(h, a, 0);
    t := MarkRuns(r, a);
    LeadsThen(s, [g], l, x, h);
    LeadsThen(s, [g] + x, h, y, r);
    LeadsThen(s, [g] + x + y, r, [g, g], t);
    steps := [g] + x + y + [g, g];
  }

  lemma LockedHanded(s: State, l: State, h: State, a: nat, any: bool)
    requires a < |s.procs| && l == s.(lock := Some(a), procs := s.procs[a := s.procs[a].(pc := ExitReparent(0))])
    requires Handed(l, h, a, 0, any, ExitWakeParent(0))
    ensures Handed(s.(lock := Some(a)), h, a, 0, any, ExitWakeParent(0))
    ensures forall c: nat :: Child(l, a, c) <==> Child(s, a, c)
  {
    forall q: nat ensures HandedAt(s.(lock := Some(a)), h, a, 0, any, q) { assert HandedAt(l, h, a, 0, any, q); }
  }

  lemma ExitRuns(s: State, a: nat) returns (steps: seq<Step>, t: State)
    requires Inv(s) && KidOk(s, a) && At(s, a, ExitWant) && s.procs[a].st == Runnable && s.lock == None && a != s.init
    ensures Mine(steps, s, a) && Leads(s, steps, t) && Exited(s, t, a)
  {
    assert LocalOk(s, a) && PairOk(s, a, a);
    var first, m := CalmRuns(s, a, |s.procs|);
    CalmComes(s, m, a);
    assert Calmed(s, m, a, |s.procs|, a);
    var rest, h, r, any;
    rest, h, r, t, any := QuietExit(m, a);
    LeadsThen(s, first, m, rest, t);
    steps := first + rest;
    SameKids(s, m, a);
    ExitJoin(s, m, h, r, t, a, any);
  }

  lemma SameKids(s: State, m: State, a: nat)
    requires Comes(s, m, a)
    ensures forall c: nat :: Child(m, a, c) <==> Child(s, a, c)
  {
  }

  lemma ExitedCall(s: State, t: State, a: nat)
    requires At(s, a, Elsewhere) && Exited(AtPc(s, a, ExitWant), t, a)
    ensures Exited(s, t, a)
  {
    var m := AtPc(s, a, ExitWant);
    forall c: nat | Child(s, a, c) ensures Child(m, a, c) {}
    forall q: nat ensures LeftAt(s, t, a, q) { assert LeftAt(m, t, a, q); }
  }

  /** In every interleaving: a process other than init that calls exit() with wait_lock free
      becomes, when it runs on, a zombie whose children are init's. */
  lemma ExitEnds(n: nat, before: seq<Step>, a: nat) returns (steps: seq<Step>)
    requires n > 0
    requires var s := Run(Boot(n), before); At(s, a, Elsewhere) && s.procs[a].st == Runnable && s.lock == None && a != s.init
    ensures Mine(steps, Run(Boot(n), before), a)
    ensures Exited(Run(Boot(n), before), Run(Run(Boot(n), before), [Exit(a)] + steps), a)
  {
    var s := Run(Boot(n), before);
    RunInv(n, before);
    SleeperHasChild(n, before, a);
    var t;
    steps, t := ExitCall(s, a);
    LeadsRuns(s, [Exit(a)] + steps, t);
  }

  lemma ExitCall(s: State, a: nat) returns (steps: seq<Step>, t: State)
    requires Inv(s) && KidOk(s, a) && At(s, a, Elsewhere) && s.procs[a].st == Runnable && s.lock == None && a != s.init
    ensures Mine(steps, s, a) && Leads(s, [Exit(a)] + steps, t) && Exited(s, t, a)
  {
    var m := AtPc(s, a, ExitWant);
    LeadsOne(s, Exit(a));
    assert Next(s, Exit(a)) == m;
    LeadsKeeps(s, [Exit(a)], m, a);
    steps, t := ExitRuns(m, a);
    LeadsThen(s, [Exit(a)], m, steps, t);
    ExitedCall(s, t, a);
  }
}
