/**
 Admission to the log (begin_op, log_write and end_op of kernel/log.c) as a state
 machine.  A step is what one process does while it holds log.lock; any number of
 processes take steps in any order.
 */
module LogAdmission {

  const MAXOPBLOCKS: nat := 10
  const LOGSIZE: nat := 30

  /** Where a process is.  `added` counts the blocks its operation has added to the log. */
  datatype Where =
    | Outside                 // not in a file-system call
    | Trying                  // in begin_op, about to test the conditions
    | Asleep                  // in begin_op, sleeping on &log
    | Inside(added: nat)      // between begin_op and end_op
    | Committing              // in commit()
    | Committed               // commit() has set log.lh.n to 0

  datatype Panic = None | CommittingSet | TooBig | OutsideTrans

  datatype State = State(size: nat, lh: seq<nat>, outstanding: int, committing: bool,
                         procs: seq<Where>, panic: Panic)

  datatype Step = Begin(p: nat) | LogWrite(p: nat, b: nat) | End(p: nat) | Clear(p: nat) | Finish(p: nat)

  /** wakeup(&log) */
  function Wake(m: seq<Where>): seq<Where> {
    seq(|m|, p requires 0 <= p < |m| => if m[p] == Asleep then Trying else m[p])
  }

  function BeginOp(s: State, p: nat): State
    requires p < |s.procs|
  {
    if s.committing || |s.lh| + (s.outstanding + 1) * MAXOPBLOCKS > LOGSIZE
    then s.(procs := s.procs[p := Asleep])
    else s.(outstanding := s.outstanding + 1, procs := s.procs[p := Inside(0)])
  }

  function LogWriteOp(s: State, p: nat, b: nat): State
    requires p < |s.procs| && s.procs[p].Inside?
  {
    if |s.lh| >= LOGSIZE || |s.lh| + 1 >= s.size then s.(panic := TooBig)
    else if s.outstanding < 1 then s.(panic := OutsideTrans)
    else if b in s.lh then s
    else s.(lh := s.lh + [b], procs := s.procs[p := Inside(s.procs[p].added + 1)])
  }

  function EndOp(s: State, p: nat): State
    requires p < |s.procs|
  {
    var out := s.outstanding - 1;
    if s.committing then s.(outstanding := out, panic := CommittingSet)
    else if out == 0 then s.(outstanding := out, committing := true, procs := s.procs[p := Committing])
    else s.(outstanding := out, procs := Wake(s.procs)[p := Outside])
  }

  /** Steps of processes that are where the step starts; others do nothing.
      An operation that has added MAXOPBLOCKS blocks adds no further one. */
  function Next(s: State, step: Step): State {
    if step.p >= |s.procs| || s.panic != None then s else
    match step
    case Begin(p) =>
      if s.procs[p] == Outside || s.procs[p] == Trying then BeginOp(s, p) else s
    case LogWrite(p, b) =>
      if s.procs[p].Inside? && (b in s.lh || s.procs[p].added < MAXOPBLOCKS) then LogWriteOp(s, p, b) else s
    case End(p) => if s.procs[p].Inside? then EndOp(s, p) else s
    case Clear(p) =>
      if s.procs[p] == Committing then s.(lh := [], procs := s.procs[p := Committed]) else s
    case Finish(p) =>
      if s.procs[p] == Committed then s.(committing := false, procs := Wake(s.procs)[p := Outside]) else s
  }

  function Run(s: State, steps: seq<Step>): State {
    if steps == [] then s else Next(Run(s, steps[..|steps| - 1]), steps[|steps| - 1])
  }

  /** n processes, none of them in a file-system call. */
  function Init(size: nat, n: nat): State {
    State(size, [], 0, false, seq(n, _ => Outside), None)
  }

  // ------------------------------------------------- sums over the processes

  function Total(m: seq<Where>, f: Where -> nat): nat {
    if m == [] then 0 else f(m[0]) + Total(m[1..], f)
  }

  lemma {:induction false} TotalPut(m: seq<Where>, f: Where -> nat, p: nat, w: Where)
    requires p < |m|
    ensures Total(m[p := w], f) + f(m[p]) == Total(m, f) + f(w)
  {
    if p == 0 {
      assert m[p := w][1..] == m[1..];
    } else {
      TotalPut(m[1..], f, p - 1, w);
      assert m[p := w][1..] == m[1..][p - 1 := w];
    }
  }

  lemma {:induction false} TotalSame(m: seq<Where>, n: seq<Where>, f: Where -> nat)
    requires |m| == |n| && forall p :: 0 <= p < |m| ==> f(m[p]) == f(n[p])
    ensures Total(m, f) == Total(n, f)
  {
    if m != [] {
      TotalSame(m[1..], n[1..], f);
    }
  }

  lemma {:induction false} TotalAtLeast(m: seq<Where>, f: Where -> nat, p: nat)
    requires p < |m|
    ensures f(m[p]) <= Total(m, f)
  {
    if p > 0 { TotalAtLeast(m[1..], f, p - 1); }
  }

  lemma {:induction false} TotalNone(m: seq<Where>, f: Where -> nat)
    requires forall p :: 0 <= p < |m| ==> f(m[p]) == 0
    ensures Total(m, f) == 0
  {
    if m != [] { TotalNone(m[1..], f); }
  }

  /** wakeup changes none of the sums below. */
  lemma TotalWake(m: seq<Where>, f: Where -> nat)
    requires f(Asleep) == f(Trying)
    ensures Total(Wake(m), f) == Total(m, f)
  {
    TotalSame(Wake(m), m, f);
  }

  // ------------------------------------------------- invariant

  /** What an operation may still add. */
  function Allowance(w: Where): nat {
    if w.Inside? && w.added <= MAXOPBLOCKS then MAXOPBLOCKS - w.added else 0
  }

  function One(w: Where): nat { if w.Inside? then 1 else 0 }

  function InCommit(w: Where): nat { if w == Committing || w == Committed then 1 else 0 }

  predicate Distinct(q: seq<nat>) {
    forall i, j :: 0 <= i < j < |q| ==> q[i] != q[j]
  }

  ghost predicate ProcOk(s: State, p: nat) {
    p < |s.procs| ==>
      && (s.procs[p].Inside? ==> s.procs[p].added <= MAXOPBLOCKS)
      && (s.procs[p] == Asleep ==> s.committing || s.outstanding > 0)
      && (s.procs[p] == Committed ==> s.lh == [])
  }

  ghost predicate Inv(s: State) {
    && s.outstanding == Total(s.procs, One)
    && |s.lh| + Total(s.procs, Allowance) <= LOGSIZE
    && Distinct(s.lh)
    && Total(s.procs, InCommit) == (if s.committing then 1 else 0)
    && (s.committing ==> s.outstanding == 0)
    && (!s.committing && s.outstanding == 0 ==> s.lh == [])
    && (forall p: nat :: ProcOk(s, p))
    && (s.panic == None || s.panic == TooBig)
  }

  lemma InitInv(size: nat, n: nat)
    ensures Inv(Init(size, n))
  {
    var s := Init(size, n);
    TotalNone(s.procs, One);
    TotalNone(s.procs, Allowance);
    TotalNone(s.procs, InCommit);
    forall p: nat ensures ProcOk(s, p) {}
  }

  lemma Puts(s: State, p: nat, w: Where)
    requires p < |s.procs|
    ensures Total(s.procs[p := w], One) + One(s.procs[p]) == Total(s.procs, One) + One(w)
    ensures Total(s.procs[p := w], Allowance) + Allowance(s.procs[p]) == Total(s.procs, Allowance) + Allowance(w)
    ensures Total(s.procs[p := w], InCommit) + InCommit(s.procs[p]) == Total(s.procs, InCommit) + InCommit(w)
  {
    TotalPut(s.procs, One, p, w);
    TotalPut(s.procs, Allowance, p, w);
    TotalPut(s.procs, InCommit, p, w);
  }

  lemma WakePuts(s: State, p: nat, w: Where)
    requires p < |s.procs| && s.procs[p] != Asleep
    ensures var m := Wake(s.procs)[p := w];
            && Total(m, One) + One(s.procs[p]) == Total(s.procs, One) + One(w)
            && Total(m, Allowance) + Allowance(s.procs[p]) == Total(s.procs, Allowance) + Allowance(w)
            && Total(m, InCommit) + InCommit(s.procs[p]) == Total(s.procs, InCommit) + InCommit(w)
  {
    TotalWake(s.procs, One);
    TotalWake(s.procs, Allowance);
    TotalWake(s.procs, InCommit);
    Puts(s.(procs := Wake(s.procs)), p, w);
  }

  /** Members of the sums are bounded by them. */
  lemma Bounds(s: State, p: nat)
    requires p < |s.procs|
    ensures One(s.procs[p]) <= Total(s.procs, One)
    ensures Allowance(s.procs[p]) <= Total(s.procs, Allowance)
    ensures InCommit(s.procs[p]) <= Total(s.procs, InCommit)
  {
    TotalAtLeast(s.procs, One, p);
    TotalAtLeast(s.procs, Allowance, p);
    TotalAtLeast(s.procs, InCommit, p);
  }

  lemma {:induction false} AllowanceBound(m: seq<Where>)
    ensures Total(m, Allowance) <= MAXOPBLOCKS * Total(m, One)
  {
    if m != [] { AllowanceBound(m[1..]); }
  }

  lemma BeginKeeps(s: State, p: nat)
    requires Inv(s) && p < |s.procs| && (s.procs[p] == Outside || s.procs[p] == Trying)
    ensures Inv(BeginOp(s, p))
  {
    var t := BeginOp(s, p);
    Puts(s, p, t.procs[p]);
    AllowanceBound(s.procs);
    forall q: nat ensures ProcOk(t, q) {
      assert ProcOk(s, q);
    }
  }

  lemma LogWriteKeeps(s: State, p: nat, b: nat)
    requires Inv(s) && p < |s.procs| && s.procs[p].Inside?
    requires b in s.lh || s.procs[p].added < MAXOPBLOCKS
    ensures Inv(LogWriteOp(s, p, b))
  {
    var t := LogWriteOp(s, p, b);
    Bounds(s, p);
    Puts(s, p, t.procs[p]);
    forall q: nat ensures ProcOk(t, q) {
      assert ProcOk(s, q);
      if q < |s.procs| { Bounds(s, q); }
    }
    forall i | 0 <= i < |s.lh| ensures b !in s.lh ==> s.lh[i] != b {}
  }

  lemma EndKeeps(s: State, p: nat)
    requires Inv(s) && p < |s.procs| && s.procs[p].Inside?
    ensures Inv(EndOp(s, p))
  {
    var t := EndOp(s, p);
    Bounds(s, p);
    Puts(s, p, Committing);
    WakePuts(s, p, Outside);
    forall q: nat ensures ProcOk(t, q) {
      assert ProcOk(s, q);
      if q < |s.procs| { Bounds(s, q); }
    }
  }

  lemma CommitStepsKeep(s: State, p: nat)
    requires Inv(s) && p < |s.procs| && InCommit(s.procs[p]) == 1 && s.panic == None
    ensures Inv(Next(s, Clear(p))) && Inv(Next(s, Finish(p)))
  {
    var c, f := Next(s, Clear(p)), Next(s, Finish(p));
    Bounds(s, p);
    Puts(s, p, Committed);
    WakePuts(s, p, Outside);
    assert ProcOk(s, p);
    forall q: nat ensures ProcOk(c, q) && ProcOk(f, q) {
      assert ProcOk(s, q);
      if q < |s.procs| && q != p { TwoCommitters(s, p, q); }
    }
  }

  lemma TwoCommitters(s: State, p: nat, q: nat)
    requires Inv(s) && p < |s.procs| && q < |s.procs| && p != q && InCommit(s.procs[p]) == 1
    ensures InCommit(s.procs[q]) == 0
  {
    Puts(s, p, Outside);
    Bounds(s.(procs := s.procs[p := Outside]), q);
  }

  lemma NextKeeps(s: State, step: Step)
    requires Inv(s)
    ensures Inv(Next(s, step))
  {
    if step.p < |s.procs| && s.panic == None {
      match step {
        case Begin(p) => if s.procs[p] == Outside || s.procs[p] == Trying { BeginKeeps(s, p); }
        case LogWrite(p, b) =>
          if s.procs[p].Inside? && (b in s.lh || s.procs[p].added < MAXOPBLOCKS) { LogWriteKeeps(s, p, b); }
        case End(p) => if s.procs[p].Inside? { EndKeeps(s, p); }
        case Clear(p) => if s.procs[p] == Committing { CommitStepsKeep(s, p); }
        case Finish(p) => if s.procs[p] == Committed { CommitStepsKeep(s, p); }
      }
    }
  }

  // ------------------------------------------------- main results

  /** In every reachable state the log has room for what every operation may still add, the
      logged blocks are distinct, and a commit runs only with no operation outstanding;
      neither the panic of end_op nor "log_write outside of trans" is ever reached. */
  lemma {:induction false} Admission(size: nat, n: nat, steps: seq<Step>)
    ensures Inv(Run(Init(size, n), steps))
  {
    if steps == [] {
      InitInv(size, n);
    } else {
      var k := |steps| - 1;
      Admission(size, n, steps[..k]);
      NextKeeps(Run(Init(size, n), steps[..k]), steps[k]);
    }
  }

  /** A process asleep in begin_op is never forgotten: an operation is outstanding, or a commit
      is running, and the end of either wakes it. */
  lemma SleeperWillBeWoken(s: State, p: nat, q: nat)
    requires Inv(s) && s.panic == None && p < |s.procs| && s.procs[p] == Asleep && q < |s.procs|
    ensures s.committing || s.outstanding > 0
    ensures s.procs[q].Inside? && s.outstanding > 1 ==> Next(s, End(q)).procs[p] == Trying
    ensures s.procs[q] == Committed ==> Next(s, Finish(q)).procs[p] == Trying
  {
    assert ProcOk(s, p);
  }

  lemma {:induction false} SomeMember(m: seq<Where>, f: Where -> nat) returns (p: nat)
    requires Total(m, f) > 0
    ensures p < |m| && f(m[p]) > 0
  {
    if f(m[0]) > 0 {
      p := 0;
    } else {
      var i := SomeMember(m[1..], f);
      p := i + 1;
    }
  }

  /** What remains of the calls that a sleeper waits for: the end of the last operation with
      its commit, or of the commit already running. */
  function Remaining(w: Where, q: nat): seq<Step> {
    if w.Inside? then [End(q), Clear(q), Finish(q)] else if w == Committing then [Clear(q), Finish(q)] else [Finish(q)]
  }

  /** From every state in which p sleeps in begin_op, some other process has only to finish
      its end_op for p to be woken; if that took a commit, p is then admitted. */
  lemma WokenAndAdmitted(s: State, p: nat) returns (q: nat, steps: seq<Step>)
    requires Inv(s) && s.panic == None && p < |s.procs| && s.procs[p] == Asleep
    ensures q < |s.procs| && q != p && (s.procs[q].Inside? || InCommit(s.procs[q]) == 1)
    ensures steps == if s.outstanding > 1 then [End(q)] else Remaining(s.procs[q], q)
    ensures Woken(Run(s, steps), p) && (s.outstanding <= 1 ==> Enters(Run(s, steps), p))
  {
    assert ProcOk(s, p);
    if s.outstanding > 0 {
      q := SomeMember(s.procs, One);
    } else {
      q := SomeMember(s.procs, InCommit);
    }
    assert ProcOk(s, q);
    if s.outstanding > 1 {
      steps := [End(q)];
      RunOne(s, [], End(q));
      assert [] + [End(q)] == [End(q)];
    } else {
      steps := Remaining(s.procs[q], q);
      FinishPath(s, p, q);
    }
  }

  predicate Woken(s: State, p: nat) {
    p < |s.procs| && s.panic == None && s.procs[p] == Trying
  }

  /** The next test of begin_op lets p in. */
  predicate Enters(s: State, p: nat) {
    p < |s.procs| && Next(s, Begin(p)).procs == s.procs[p := Inside(0)]
  }

  lemma FinishWakes(s: State, p: nat, q: nat)
    requires Inv(s) && s.panic == None && p < |s.procs| && q < |s.procs| && s.procs[p] == Asleep && s.procs[q] == Committed
    ensures var t := Next(s, Finish(q)); Woken(t, p) && Enters(t, p)
  {
    assert ProcOk(s, q);
    Bounds(s, q);
  }

  lemma CommitWakes(s: State, p: nat, q: nat)
    requires Inv(s) && s.panic == None && p < |s.procs| && q < |s.procs| && s.procs[p] == Asleep && s.procs[q] == Committing
    ensures var t := Next(Next(s, Clear(q)), Finish(q)); Woken(t, p) && Enters(t, p)
  {
    CommitStepsKeep(s, q);
    FinishWakes(Next(s, Clear(q)), p, q);
  }

  lemma LastEndWakes(s: State, p: nat, q: nat)
    requires Inv(s) && s.panic == None && p < |s.procs| && q < |s.procs| && s.procs[p] == Asleep
    requires s.procs[q].Inside? && s.outstanding == 1
    ensures var t := Next(Next(Next(s, End(q)), Clear(q)), Finish(q)); Woken(t, p) && Enters(t, p)
  {
    EndKeeps(s, q);
    CommitWakes(Next(s, End(q)), p, q);
  }

  /** The last operation, or the commit, run to its end. */
  lemma FinishPath(s: State, p: nat, q: nat)
    requires Inv(s) && s.panic == None && p < |s.procs| && q < |s.procs| && s.procs[p] == Asleep
    requires (s.procs[q].Inside? && s.outstanding == 1) || InCommit(s.procs[q]) == 1
    ensures var t := Run(s, Remaining(s.procs[q], q)); Woken(t, p) && Enters(t, p)
  {
    var w := s.procs[q];
    assert Run(s, []) == s;
    if w.Inside? {
      LastEndWakes(s, p, q);
      RunOne(s, [], End(q));
      RunOne(s, [End(q)], Clear(q));
      RunOne(s, [End(q), Clear(q)], Finish(q));
      assert [] + [End(q)] == [End(q)] && [End(q)] + [Clear(q)] == [End(q), Clear(q)];
      assert [End(q), Clear(q)] + [Finish(q)] == Remaining(w, q);
    } else if w == Committing {
      CommitWakes(s, p, q);
      RunOne(s, [], Clear(q));
      RunOne(s, [Clear(q)], Finish(q));
      assert [] + [Clear(q)] == [Clear(q)] && [Clear(q)] + [Finish(q)] == Remaining(w, q);
    } else {
      FinishWakes(s, p, q);
      RunOne(s, [], Finish(q));
      assert [] + [Finish(q)] == Remaining(w, q);
    }
  }

  /** When the log area is larger than LOGSIZE, a write that adds a block within its
      operation's allowance is always accepted; in general it is accepted exactly when the
      log has room. */
  lemma NewBlockAccepted(s: State, p: nat, b: nat)
    requires Inv(s) && s.panic == None && p < |s.procs| && s.procs[p].Inside?
    requires b !in s.lh && s.procs[p].added < MAXOPBLOCKS
    ensures Next(s, LogWrite(p, b)).panic == None <==> |s.lh| + 1 < s.size
    ensures s.size > LOGSIZE ==> Next(s, LogWrite(p, b)).panic == None
    ensures Next(s, LogWrite(p, b)).panic == None ==>
              Next(s, LogWrite(p, b)) == s.(lh := s.lh + [b], procs := s.procs[p := Inside(s.procs[p].added + 1)])
  {
    Bounds(s, p);
  }

  /** Only process p may differ. */
  predicate OthersSame(s: State, t: State, p: nat) {
    |t.procs| == |s.procs| && forall q :: 0 <= q < |s.procs| && q != p ==> t.procs[q] == s.procs[q]
  }

  /** In every interleaving: begin_op lets an operation in exactly when no commit runs and ten
      blocks for it, ten for each one outstanding and those logged are at most thirty; it leaves
      the log and the other processes. */
  lemma EntersExactly(size: nat, n: nat, steps: seq<Step>, p: nat)
    ensures var s := Run(Init(size, n), steps);
            var t := Next(s, Begin(p));
            p < |s.procs| && s.panic == None && (s.procs[p] == Outside || s.procs[p] == Trying) ==>
              && OthersSame(s, t, p) && t.lh == s.lh && t.committing == s.committing && t.panic == None
              && if !s.committing && |s.lh| + 10 * Total(s.procs, One) + 10 <= 30
                 then t.procs[p] == Inside(0) && t.outstanding == s.outstanding + 1
                 else t.procs[p] == Asleep && t.outstanding == s.outstanding
  {
    Admission(size, n, steps);
  }

  /** end_op of the last operation starts the commit of all that is logged; any other one leaves
      and wakes everybody who waits for room. */
  lemma EndsExactly(size: nat, n: nat, steps: seq<Step>, p: nat)
    ensures var s := Run(Init(size, n), steps);
            var t := Next(s, End(p));
            p < |s.procs| && s.panic == None && s.procs[p].Inside? ==>
              && t.lh == s.lh && t.panic == None && |t.procs| == |s.procs| && t.outstanding == s.outstanding - 1
              && (t.committing <==> Total(s.procs, One) == 1)
              && t.procs[p] == (if t.committing then Committing else Outside)
              && forall q :: 0 <= q < |s.procs| && q != p ==>
                   t.procs[q] == if !t.committing && s.procs[q] == Asleep then Trying else s.procs[q]
  {
    var s := Run(Init(size, n), steps);
    Admission(size, n, steps);
    if p < |s.procs| { Bounds(s, p); }
  }

  /** A logged block stays logged until a commit with no operation outstanding clears the log. */
  lemma StaysLogged(size: nat, n: nat, steps: seq<Step>, step: Step, b: nat)
    ensures var s := Run(Init(size, n), steps);
            b in s.lh && b !in Next(s, step).lh ==>
              step.Clear? && s.committing && Total(s.procs, One) == 0 && Next(s, step).lh == []
  {
    var s := Run(Init(size, n), steps);
    Admission(size, n, steps);
    if step.p < |s.procs| && s.procs[step.p] == Committing { Bounds(s, step.p); }
  }

  /** The guard runs before absorption: a block that is already logged is refused when full. */
  lemma AbsorbedBlockAccepted(s: State, p: nat, b: nat)
    requires Inv(s) && s.panic == None && p < |s.procs| && s.procs[p].Inside? && b in s.lh
    ensures Next(s, LogWrite(p, b)).panic == None <==> |s.lh| < LOGSIZE && |s.lh| + 1 < s.size
    ensures Next(s, LogWrite(p, b)).panic == None ==> Next(s, LogWrite(p, b)) == s
  {
    Bounds(s, p);
  }

  // ------------------------------------------------- the log area that mkfs makes

  /** Blocks process j has added once k blocks were logged, ten by each process in turn. */
  function Used(k: nat, j: nat): nat {
    if k <= 10 * j then 0 else if k <= 10 * j + 10 then k - 10 * j else 10
  }

  function Filled(k: nat): State {
    State(LOGSIZE, seq(k, i => i), 3, false,
          [Inside(Used(k, 0)), Inside(Used(k, 1)), Inside(Used(k, 2))], None)
  }

  function FillSteps(k: nat): seq<Step> {
    if k == 0 then [Begin(0), Begin(1), Begin(2)]
    else FillSteps(k - 1) + [LogWrite((k - 1) / 10, k - 1)]
  }

  lemma RunOne(s: State, steps: seq<Step>, step: Step)
    ensures Run(s, steps + [step]) == Next(Run(s, steps), step)
  {
    assert (steps + [step])[..|steps|] == steps;
  }

  lemma FillOne()
    ensures Run(Init(LOGSIZE, 3), [Begin(0)]) == Next(Init(LOGSIZE, 3), Begin(0))
  {
    RunOne(Init(LOGSIZE, 3), [], Begin(0));
    assert [] + [Begin(0)] == [Begin(0)];
  }

  lemma FillTwo()
    ensures Run(Init(LOGSIZE, 3), [Begin(0), Begin(1)]) == Next(Next(Init(LOGSIZE, 3), Begin(0)), Begin(1))
  {
    FillOne();
    RunOne(Init(LOGSIZE, 3), [Begin(0)], Begin(1));
    assert [Begin(0)] + [Begin(1)] == [Begin(0), Begin(1)];
  }

  lemma ThreeBegin(s: State)
    requires s == Init(LOGSIZE, 3)
    ensures Next(Next(Next(s, Begin(0)), Begin(1)), Begin(2)) == Filled(0)
  {
    assert s.procs == [Outside, Outside, Outside];
    var t := Next(s, Begin(0));
    assert t.procs == [Inside(0), Outside, Outside];
    var u := Next(t, Begin(1));
    assert u.procs == [Inside(0), Inside(0), Outside];
  }

  lemma FillStart()
    ensures Run(Init(LOGSIZE, 3), FillSteps(0)) == Filled(0)
  {
    var s := Init(LOGSIZE, 3);
    FillTwo();
    RunOne(s, [Begin(0), Begin(1)], Begin(2));
    assert FillSteps(0) == [Begin(0), Begin(1)] + [Begin(2)];
    ThreeBegin(s);
  }

  lemma FillNext(k: nat)
    requires k < 29
    ensures Next(Filled(k), LogWrite(k / 10, k)) == Filled(k + 1)
  {
    var s := Filled(k);
    assert k !in s.lh;
    assert s.lh + [k] == Filled(k + 1).lh;
    var j := k / 10;
    assert s.procs[j].added == k - 10 * j < MAXOPBLOCKS;
    assert s.procs[j := Inside(k - 10 * j + 1)] == Filled(k + 1).procs;
  }

  lemma {:induction false} FillRun(k: nat)
    requires k <= 29
    ensures Run(Init(LOGSIZE, 3), FillSteps(k)) == Filled(k)
  {
    if k == 0 {
      FillStart();
    } else {
      FillRun(k - 1);
      FillNext(k - 1);
      RunOne(Init(LOGSIZE, 3), FillSteps(k - 1), LogWrite((k - 1) / 10, k - 1));
    }
  }

  /** With log.size equal to LOGSIZE three operations that stay within their allowance
      do reach the panic: the last of the thirty blocks is refused. */
  lemma MkfsLogPanics()
    ensures var s := Run(Init(LOGSIZE, 3), FillSteps(29));
            && s.panic == None && s.procs == [Inside(10), Inside(10), Inside(9)] && 29 !in s.lh
            && Run(Init(LOGSIZE, 3), FillSteps(29) + [LogWrite(2, 29)]).panic == TooBig
  {
    FillRun(29);
    RunOne(Init(LOGSIZE, 3), FillSteps(29), LogWrite(2, 29));
  }
}
