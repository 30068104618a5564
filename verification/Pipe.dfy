/**
 kernel/pipe.c: a ring of 512 bytes between writers and readers.  The counters nread and
 nwrite are 32-bit and wrap.  sleep() gives up the pipe's lock, so a call is a series of
 bursts; each method is one burst, run under the lock.  Between bursts anything may run.
 */
module Pipe {

  const WRAP: nat := 0x1_0000_0000

  /** How a burst of pipewrite ends. */
  datatype WriteEnd = Finished | Faulted | Sleeps | Killed

  /** How a burst of piperead ends. */
  datatype ReadEnd = Delivered | Waits | Dead

  /** Counters that wrapped still tell full from empty. */
  lemma Wrapped(sent: nat, taken: nat)
    requires taken <= sent <= taken + 512
    ensures sent % WRAP == taken % WRAP <==> sent == taken
    ensures sent % WRAP == (taken % WRAP + 512) % WRAP <==> sent == taken + 512
  {
  }

  lemma Residue(q: int, r: int)
    requires 0 <= r < 0x1_0000_0000
    ensures (0x1_0000_0000 * q + r) % 0x1_0000_0000 == r
  {
  }

  lemma RingPlace(k: int, b: int)
    requires 0 <= b < 512
    ensures (512 * k + b) % 512 == b
  {
  }

  /** Counting on in 32 bits, and the place of a byte in the ring. */
  lemma CountOn(t: nat)
    ensures (t % WRAP + 1) % WRAP == (t + 1) % WRAP && t % WRAP % 512 == t % 512
  {
    var q, r := t / 0x1_0000_0000, t % 0x1_0000_0000;
    RingPlace(0x80_0000 * q + r / 512, r % 512);
    if r == 0xffff_ffff { Residue(q + 1, 0); } else { Residue(q, r + 1); }
  }

  /** The bytes not yet taken lie in the ring at their numbers modulo 512. */
  ghost predicate StoredAt(data: seq<nat>, sent: seq<nat>, taken: nat, k: nat) {
    taken <= k < |sent| && |data| == 512 ==> data[k % 512] == sent[k]
  }

  ghost predicate Stored(data: seq<nat>, sent: seq<nat>, taken: nat) {
    |data| == 512 && forall k: nat :: StoredAt(data, sent, taken, k)
  }

  lemma PutKeeps(data: seq<nat>, sent: seq<nat>, taken: nat, ch: nat)
    requires taken <= |sent| < taken + 512 && Stored(data, sent, taken)
    ensures Stored(data[|sent| % 512 := ch], sent + [ch], taken)
  {
    var data', sent' := data[|sent| % 512 := ch], sent + [ch];
    forall k: nat ensures StoredAt(data', sent', taken, k) {
      assert StoredAt(data, sent, taken, k);
    }
  }

  lemma TakeKeeps(data: seq<nat>, sent: seq<nat>, taken: nat)
    requires Stored(data, sent, taken)
    ensures Stored(data, sent, taken + 1)
  {
    var rest := taken + 1;
    forall k: nat ensures StoredAt(data, sent, rest, k) { assert StoredAt(data, sent, taken, k); }
  }

  /** How many bytes a burst of pipewrite moves: as many as are left, as the turns before
      the kill, the room in the ring and the readable source allow. */
  function Burst(left: nat, turns: nat, room: nat, avail: nat): nat {
    Min(Min(left, turns), Min(room, avail))
  }

  function Min(a: nat, b: nat): nat {
    if a < b then a else b
  }

  // ------------------------------------------------- the pipe as a stream

  /** All that was ever put in, how much of it was taken out, and the open ends. */
  datatype Stream = Stream(sent: seq<nat>, taken: nat, readopen: bool, writeopen: bool)

  datatype Op =
    | Send(src: seq<nat>, i: nat, avail: nat, turns: nat)
    | Receive(n: nat, avail: nat, killed: bool)
    | Shut(writable: bool)

  datatype Reply =
    | Took(n: nat, wend: WriteEnd)
    | Gave(out: seq<nat>, rend: ReadEnd)
    | Shutdown(freed: bool)

  /** A burst of a write starts inside its buffer. */
  predicate OpOk(op: Op) {
    op.Send? ==> op.i <= |op.src|
  }

  predicate StreamOk(s: Stream) {
    s.taken <= |s.sent| <= s.taken + 512
  }

  /** How many bytes a burst of a write puts in. */
  function Accepts(s: Stream, op: Op): (n: nat)
    requires StreamOk(s) && OpOk(op) && op.Send?
    ensures op.i + n <= |op.src| && |s.sent| + n <= s.taken + 512
  {
    Burst(|op.src| - op.i, if s.readopen then op.turns else 0, s.taken + 512 - |s.sent|,
          if op.i <= op.avail then op.avail - op.i else 0)
  }

  /** How many bytes a burst of a read delivers, */
  function Delivers(s: Stream, op: Op): (n: nat)
    requires StreamOk(s) && op.Receive?
    ensures s.taken + n <= |s.sent| && n <= op.n
  {
    Min(Min(op.n, op.avail), |s.sent| - s.taken)
  }

  /** and how many it takes for a place it cannot write. */
  function Loses(s: Stream, op: Op): (n: nat)
    ensures n <= 1
  {
    if op.Receive? && op.avail < op.n && op.avail < |s.sent| - s.taken then 1 else 0
  }

  /** The bytes an operation adds to the stream. */
  function Added(s: Stream, op: Op): seq<nat>
    requires StreamOk(s) && OpOk(op)
  {
    if op.Send? then op.src[op.i..op.i + Accepts(s, op)] else []
  }

  /** The bytes an operation hands to a reader. */
  function Handed(s: Stream, op: Op): seq<nat>
    requires StreamOk(s)
  {
    if op.Receive? then s.sent[s.taken..s.taken + Delivers(s, op)] else []
  }

  function After(s: Stream, op: Op): (t: Stream)
    requires StreamOk(s) && OpOk(op)
    ensures StreamOk(t)
  {
    Stream(s.sent + Added(s, op), s.taken + |Handed(s, op)| + Loses(s, op),
           s.readopen && !(op.Shut? && !op.writable), s.writeopen && !(op.Shut? && op.writable))
  }

  function Answer(s: Stream, op: Op): Reply
    requires StreamOk(s) && OpOk(op)
  {
    match op
    case Send(src, i, avail, turns) =>
      var n := Accepts(s, op);
      Took(n, if i + n == |src| then Finished else if !s.readopen || n == turns then Killed
              else if |s.sent| + n == s.taken + 512 then Sleeps else Faulted)
    case Receive(n, avail, killed) =>
      Gave(Handed(s, op), if s.taken < |s.sent| || !s.writeopen then Delivered else if killed then Dead else Waits)
    case Shut(writable) =>
      Shutdown(!After(s, op).readopen && !After(s, op).writeopen)
  }

  predicate OpsOk(ops: seq<Op>) {
    forall k :: 0 <= k < |ops| ==> OpOk(ops[k])
  }

  /** Operation k takes the stream on and gives the stream's reply. */
  ghost predicate StepAt(ops: seq<Op>, rs: seq<Reply>, trace: seq<Stream>, k: nat) {
    k < |ops| && k < |rs| && k + 1 < |trace| ==>
      StreamOk(trace[k]) && OpOk(ops[k]) && trace[k + 1] == After(trace[k], ops[k]) && rs[k] == Answer(trace[k], ops[k])
  }

  /** A run from trace[0]: every stream and every reply follows from the stream before. */
  ghost predicate History(ops: seq<Op>, rs: seq<Reply>, trace: seq<Stream>) {
    |rs| <= |ops| && |trace| == |rs| + 1 && forall k: nat :: StepAt(ops, rs, trace, k)
  }

  lemma HistoryOn(ops: seq<Op>, rs: seq<Reply>, trace: seq<Stream>)
    requires History(ops, rs, trace) && |rs| < |ops| && StreamOk(trace[|rs|]) && OpOk(ops[|rs|])
    ensures var n := |rs|; History(ops, rs + [Answer(trace[n], ops[n])], trace + [After(trace[n], ops[n])])
  {
    var n := |rs|;
    var more, long := rs + [Answer(trace[n], ops[n])], trace + [After(trace[n], ops[n])];
    forall k: nat ensures StepAt(ops, more, long, k) { assert StepAt(ops, rs, trace, k); }
  }

  /** The part of a writer's buffer that went in, by the count its call returns. */
  function Piece(op: Op, r: Reply): seq<nat> {
    if op.Send? && r.Took? && op.i + r.n <= |op.src| then op.src[op.i..op.i + r.n] else []
  }

  /** What the writers put in over the first k operations. */
  function Written(ops: seq<Op>, rs: seq<Reply>, k: nat): seq<nat>
    requires k <= |rs| <= |ops|
  {
    if k == 0 then [] else Written(ops, rs, k - 1) + Piece(ops[k - 1], rs[k - 1])
  }

  /** What a reader gets. */
  function Output(r: Reply): seq<nat> {
    if r.Gave? then r.out else []
  }

  function Received(rs: seq<Reply>, k: nat): seq<nat>
    requires k <= |rs|
  {
    if k == 0 then [] else Received(rs, k - 1) + Output(rs[k - 1])
  }

  /** No writer is killed after a byte and before its last. */
  predicate Whole(op: Op) {
    op.Send? ==> op.turns == 0 || op.i + op.turns >= |op.src|
  }

  predicate Uncut(ops: seq<Op>) {
    forall k :: 0 <= k < |ops| ==> Whole(ops[k])
  }

  // ------------------------------------------------- what one call does

  /** A write from byte i on put n bytes in and stopped with `end`: all of them are in, or it
      came to a closed read end or a kill, a byte it could not read, or a full pipe. */
  predicate SendMeans(s: Stream, op: Op, n: nat, end: WriteEnd, t: Stream) {
    && op.Send? && op.i + n <= |op.src| && n <= op.turns && |s.sent| + n <= s.taken + 512 && (n > 0 ==> s.readopen && op.i + n <= op.avail)
    && t == s.(sent := s.sent + op.src[op.i..op.i + n])
    && (end == Finished <==> op.i + n == |op.src|)
    && (end == Killed ==> !s.readopen || n == op.turns)
    && (end == Sleeps ==> s.readopen && n < op.turns && |s.sent| + n == s.taken + 512)
    && (end == Faulted ==> s.readopen && n < op.turns && |s.sent| + n < s.taken + 512 && op.avail <= op.i + n)
  }

  /** A read gave the oldest bytes, all there were unless it asked for fewer or came to a place
      it could not write, where it lost a byte; it waits exactly if there are none and a writer
      is left. */
  predicate ReceiveMeans(s: Stream, op: Op, out: seq<nat>, end: ReadEnd, t: Stream) {
    && op.Receive? && |out| <= op.n && s.taken + |out| <= |s.sent| && out == s.sent[s.taken..s.taken + |out|]
    && (|out| < op.n && s.taken + |out| < |s.sent| <==> t.taken == s.taken + |out| + 1)
    && (|out| < op.n && s.taken + |out| < |s.sent| ==> |out| == op.avail)
    && (t.taken == s.taken + |out| || t.taken == s.taken + |out| + 1) && t == s.(taken := t.taken)
    && (end == Waits <==> s.taken == |s.sent| && s.writeopen && !op.killed)
    && (end == Dead <==> s.taken == |s.sent| && s.writeopen && op.killed)
  }

  predicate ShutMeans(s: Stream, op: Op, freed: bool, t: Stream) {
    && op.Shut? && t == s.(readopen := t.readopen, writeopen := t.writeopen)
    && (t.readopen <==> s.readopen && op.writable) && (t.writeopen <==> s.writeopen && !op.writable)
    && (freed <==> !t.readopen && !t.writeopen)
  }

  lemma CallMeans(s: Stream, op: Op)
    requires StreamOk(s) && OpOk(op)
    ensures var t := After(s, op);
            match Answer(s, op)
            case Took(n, end) => SendMeans(s, op, n, end, t)
            case Gave(out, end) => ReceiveMeans(s, op, out, end, t)
            case Shutdown(freed) => ShutMeans(s, op, freed, t)
  {
  }

  // ------------------------------------------------- what readers get of a stream

  /** The marked bytes, in order. */
  function Select(bytes: seq<nat>, marks: seq<bool>): seq<nat>
    requires |bytes| == |marks|
  {
    if bytes == [] then []
    else
      var n := |bytes| - 1;
      Select(bytes[..n], marks[..n]) + if marks[n] then [bytes[n]] else []
  }

  function Losses(marks: seq<bool>): nat {
    if marks == [] then 0 else Losses(marks[..|marks| - 1]) + if marks[|marks| - 1] then 0 else 1
  }

  /** The bytes of a run that reads take and cannot deliver. */
  function Faults(ops: seq<Op>, trace: seq<Stream>, k: nat): nat
    requires k <= |ops| && k <= |trace|
  {
    if k == 0 then 0 else Faults(ops, trace, k - 1) + Loses(trace[k - 1], ops[k - 1])
  }

  /** n bytes delivered, then l lost. */
  function Marked(n: nat, l: nat): (m: seq<bool>)
    ensures |m| == n + l
  {
    seq(n, _ => true) + seq(l, _ => false)
  }

  lemma SelectOne(bytes: seq<nat>, marks: seq<bool>, b: nat, m: bool)
    requires |bytes| == |marks|
    ensures Select(bytes + [b], marks + [m]) == if m then Select(bytes, marks) + [b] else Select(bytes, marks)
    ensures Losses(marks + [m]) == Losses(marks) + if m then 0 else 1
  {
    assert (bytes + [b])[..|bytes|] == bytes && (marks + [m])[..|marks|] == marks;
    assert Select(bytes, marks) + [] == Select(bytes, marks);
  }

  lemma {:induction false} SelectAll(bytes: seq<nat>, marks: seq<bool>, out: seq<nat>)
    requires |bytes| == |marks|
    ensures Select(bytes + out, marks + Marked(|out|, 0)) == Select(bytes, marks) + out
    ensures Losses(marks + Marked(|out|, 0)) == Losses(marks)
    decreases |out|
  {
    if out == [] {
      assert bytes + out == bytes && marks + Marked(0, 0) == marks;
    } else {
      var n := |out| - 1;
      SelectAll(bytes, marks, out[..n]);
      SelectOne(bytes + out[..n], marks + Marked(n, 0), out[n], true);
      assert bytes + out == (bytes + out[..n]) + [out[n]];
      assert marks + Marked(|out|, 0) == (marks + Marked(n, 0)) + [true];
      assert Select(bytes, marks) + out == (Select(bytes, marks) + out[..n]) + [out[n]];
    }
  }

  lemma LastLost(bytes: seq<nat>, marks: seq<bool>, out: seq<nat>, x: nat)
    ensures bytes + (out + [x]) == (bytes + out) + [x]
    ensures marks + Marked(|out|, 1) == (marks + Marked(|out|, 0)) + [false]
  {
  }

  lemma SelectLost(bytes: seq<nat>, marks: seq<bool>, out: seq<nat>, x: nat)
    requires |bytes| == |marks|
    ensures Select(bytes + (out + [x]), marks + Marked(|out|, 1)) == Select(bytes, marks) + out
    ensures Losses(marks + Marked(|out|, 1)) == Losses(marks) + 1
  {
    SelectAll(bytes, marks, out);
    SelectOne(bytes + out, marks + Marked(|out|, 0), x, false);
    LastLost(bytes, marks, out, x);
  }

  /** A step that delivers the first bytes of what it takes and loses at most one more. */
  lemma SelectStep(bytes: seq<nat>, marks: seq<bool>, more: seq<nat>, out: seq<nat>, l: nat)
    requires |bytes| == |marks| && l <= 1 && |more| == |out| + l && more[..|out|] == out
    ensures Select(bytes + more, marks + Marked(|out|, l)) == Select(bytes, marks) + out
    ensures Losses(marks + Marked(|out|, l)) == Losses(marks) + l
  {
    if l == 0 {
      assert more == out;
      SelectAll(bytes, marks, out);
    } else {
      assert more == out + [more[|out|]];
      SelectLost(bytes, marks, out, more[|out|]);
    }
  }

  /** Of the bytes from..taken of the stream, got are those marked as delivered. */
  ghost predicate Passed(sent: seq<nat>, from: nat, taken: nat, got: seq<nat>, marks: seq<bool>) {
    from <= taken <= |sent| && |marks| == taken - from && got == Select(sent[from..taken], marks)
  }

  lemma PassedStep(s0: seq<nat>, s1: seq<nat>, from: nat, t: nat, got: seq<nat>, marks: seq<bool>, out: seq<nat>, l: nat)
    requires s0 <= s1 && Passed(s0, from, t, got, marks) && t + |out| + l <= |s1| && l <= 1 && out == s1[t..t + |out|]
    ensures Passed(s1, from, t + |out| + l, got + out, marks + Marked(|out|, l))
    ensures Losses(marks + Marked(|out|, l)) == Losses(marks) + l
  {
    var more := s1[t..t + |out| + l];
    assert s1[from..t + |out| + l] == s0[from..t] + more;
    assert more[..|out|] == out;
    SelectStep(s0[from..t], marks, more, out, l);
  }

  /** From t to u: add goes in, out is delivered and l bytes are lost. */
  ghost predicate Moves(t: Stream, u: Stream, add: seq<nat>, out: seq<nat>, l: nat) {
    && l <= 1 && u.sent == t.sent + add && u.taken == t.taken + |out| + l <= |u.sent|
    && out == u.sent[t.taken..t.taken + |out|]
  }

  ghost predicate MovesAt(ops: seq<Op>, rs: seq<Reply>, trace: seq<Stream>, k: nat) {
    k < |ops| && k < |rs| && k + 1 < |trace| ==>
      Moves(trace[k], trace[k + 1], Piece(ops[k], rs[k]), Output(rs[k]), Loses(trace[k], ops[k]))
  }

  ghost predicate Flow(ops: seq<Op>, rs: seq<Reply>, trace: seq<Stream>) {
    |rs| <= |ops| && |trace| == |rs| + 1 && forall k: nat :: MovesAt(ops, rs, trace, k)
  }

  lemma HistoryFlows(ops: seq<Op>, rs: seq<Reply>, trace: seq<Stream>)
    requires History(ops, rs, trace)
    ensures Flow(ops, rs, trace)
  {
    forall k: nat ensures MovesAt(ops, rs, trace, k) { assert StepAt(ops, rs, trace, k); }
  }

  lemma WriteOn(t: Stream, u: Stream, add: seq<nat>, out: seq<nat>, l: nat, a: seq<nat>, w: seq<nat>)
    requires Moves(t, u, add, out, l) && t.sent == a + w
    ensures u.sent == a + (w + add)
  {
  }

  lemma {:induction false} FlowWritten(ops: seq<Op>, rs: seq<Reply>, trace: seq<Stream>, k: nat)
    requires Flow(ops, rs, trace) && k <= |rs|
    ensures trace[k].sent == trace[0].sent + Written(ops, rs, k)
  {
    if k > 0 {
      FlowWritten(ops, rs, trace, k - 1);
      assert MovesAt(ops, rs, trace, k - 1);
      WriteOn(trace[k - 1], trace[k], Piece(ops[k - 1], rs[k - 1]), Output(rs[k - 1]),
              Loses(trace[k - 1], ops[k - 1]), trace[0].sent, Written(ops, rs, k - 1));
    }
  }

  lemma PassOn(t: Stream, u: Stream, add: seq<nat>, out: seq<nat>, l: nat, from: nat, got: seq<nat>, marks: seq<bool>)
    returns (more: seq<bool>)
    requires Moves(t, u, add, out, l) && Passed(t.sent, from, t.taken, got, marks)
    ensures Passed(u.sent, from, u.taken, got + out, more) && Losses(more) == Losses(marks) + l
  {
    PassedStep(t.sent, u.sent, from, t.taken, got, marks, out, l);
    more := marks + Marked(|out|, l);
  }

  lemma {:induction false} FlowOrder(ops: seq<Op>, rs: seq<Reply>, trace: seq<Stream>, k: nat) returns (marks: seq<bool>)
    requires Flow(ops, rs, trace) && k <= |rs| && trace[0].taken <= |trace[0].sent|
    ensures Passed(trace[k].sent, trace[0].taken, trace[k].taken, Received(rs, k), marks)
    ensures Losses(marks) == Faults(ops, trace, k)
  {
    marks := [];
    if k > 0 {
      var some := FlowOrder(ops, rs, trace, k - 1);
      assert MovesAt(ops, rs, trace, k - 1);
      marks := PassOn(trace[k - 1], trace[k], Piece(ops[k - 1], rs[k - 1]), Output(rs[k - 1]),
                      Loses(trace[k - 1], ops[k - 1]), trace[0].taken, Received(rs, k - 1), some);
    }
  }

  /** In every interleaving the stream is what the writers' calls say they wrote, and the
      readers get it in order, without the bytes that faulting reads took. */
  lemma InOrder(ops: seq<Op>, rs: seq<Reply>, trace: seq<Stream>) returns (marks: seq<bool>)
    requires History(ops, rs, trace) && StreamOk(trace[0])
    ensures var n, s, t := |rs|, trace[0], trace[|rs|];
            && t.sent == s.sent + Written(ops, rs, n)
            && Passed(t.sent, s.taken, t.taken, Received(rs, n), marks)
    ensures Losses(marks) == Faults(ops, trace, |rs|)
  {
    HistoryFlows(ops, rs, trace);
    FlowWritten(ops, rs, trace, |rs|);
    marks := FlowOrder(ops, rs, trace, |rs|);
  }

  class Ring {
    const data: array<nat>
    var nread: nat
    var nwrite: nat
    var readopen: bool
    var writeopen: bool
    ghost var sent: seq<nat>
    ghost var taken: nat
    ghost var readers: nat
    ghost var writers: nat

    ghost predicate Valid()
      reads this, data
    {
      && data.Length == 512 && nread == taken % WRAP && nwrite == |sent| % WRAP
      && taken <= |sent| <= taken + 512 && Stored(data[..], sent, taken)
    }

    /** Nobody sleeps for a condition that holds already. */
    ghost predicate Awake()
      reads this
    {
      && (readers > 0 ==> taken == |sent| && writeopen)
      && (writers > 0 ==> |sent| == taken + 512 && readopen)
    }

    constructor ()
      ensures Valid() && readers == 0 && writers == 0 && sent == [] && taken == 0 && readopen && writeopen && fresh(data)
    {
      data := new nat[512];
      nread, nwrite, readopen, writeopen := 0, 0, true, true;
      sent, taken, readers, writers := [], 0, 0, 0;
    }

    /** One byte into the ring. */
    method Put(ch: nat)
      requires Valid() && |sent| < taken + 512
      modifies this`nwrite, this`sent, data
      ensures Valid() && sent == old(sent) + [ch]
    {
      CountOn(|sent|);
      PutKeeps(data[..], sent, taken, ch);
      ghost var before := data[..];
      data[nwrite % 512] := ch;
      assert data[..] == before[|sent| % 512 := ch];
      nwrite := (nwrite + 1) % WRAP;
      sent := sent + [ch];
    }

    /** One byte out of the ring. */
    method Take() returns (ch: nat)
      requires Valid() && taken < |sent|
      modifies this`nread, this`taken
      ensures Valid() && taken == old(taken) + 1 && ch == sent[old(taken)]
    {
      CountOn(taken);
      assert StoredAt(data[..], sent, taken, taken);
      TakeKeeps(data[..], sent, taken);
      ch := data[nread % 512];
      nread := (nread + 1) % WRAP;
      taken := taken + 1;
    }

    /** A burst of pipewrite that goes on from byte i of src.  The first avail bytes of src
        can be read; killed(pr) turns true after `turns` turns of the loop. */
    method Write(src: seq<nat>, i0: nat, avail: nat, turns: nat) returns (i: nat, end: WriteEnd)
      requires Valid() && i0 <= |src|
      modifies this, data
      ensures Valid() && readopen == old(readopen) && writeopen == old(writeopen) && taken == old(taken)
      ensures i0 <= i <= |src| && sent == old(sent) + src[i0..i]
      ensures i - i0 == Burst(|src| - i0, if readopen then turns else 0, taken + 512 - |old(sent)|, if i0 <= avail then avail - i0 else 0)
      ensures end == if i == |src| then Finished else if !readopen || i - i0 == turns then Killed else if |sent| == taken + 512 then Sleeps else Faulted
      ensures readers == (if end == Killed then old(readers) else 0) && writers == old(writers) + if end == Sleeps then 1 else 0
      ensures old(Awake()) ==>
                (Awake() <==> !(old(readers) > 0 && readopen && 0 < turns < |src| - i0 && turns <= taken + 512 - |old(sent)| && i0 + turns <= avail))
    {
      i := i0;
      var t := 0;
      while i < |src|
        invariant i0 <= i <= |src| && t == i - i0 && t <= turns && Valid()
        invariant sent == old(sent) + src[i0..i] && taken == old(taken)
        invariant readopen == old(readopen) && writeopen == old(writeopen)
        invariant readers == old(readers) && writers == old(writers)
        invariant i > i0 ==> readopen && i <= avail
      {
        Wrapped(|sent|, taken);
        if !readopen || t >= turns {
          return i, Killed;
        }
        if nwrite == (nread + 512) % WRAP {
          readers := 0;
          writers := writers + 1;
          return i, Sleeps;
        }
        if avail <= i {
          readers := 0;
          return i, Faulted;
        }
        Put(src[i]);
        i, t := i + 1, t + 1;
      }
      readers := 0;
      return i, Finished;
    }

    /** A burst of piperead for n bytes, the first avail of which can be copied out. */
    method Read(n: nat, avail: nat, killed: bool) returns (out: seq<nat>, end: ReadEnd)
      requires Valid()
      modifies this`nread, this`taken, this`readers, this`writers
      ensures Valid() && |out| <= n && old(taken) + |out| <= |sent|
      ensures out == sent[old(taken)..old(taken) + |out|]
      ensures end == if old(taken) < |sent| || !writeopen then Delivered else if killed then Dead else Waits
      ensures readers == (if end == Waits then old(readers) + 1 else old(readers)) && writers == if end == Delivered then 0 else old(writers)
      ensures end != Delivered ==> out == [] && taken == old(taken)
      ensures end == Delivered ==> |out| == Min(Min(n, avail), |sent| - old(taken))
      ensures end == Delivered ==> taken == old(taken) + |out| + if avail < n && avail < |sent| - old(taken) then 1 else 0
      ensures old(Awake()) ==> Awake()
    {
      Wrapped(|sent|, taken);
      out := [];
      if nread == nwrite && writeopen {
        if killed { return out, Dead; }
        readers := readers + 1;
        return out, Waits;
      }
      ghost var from := taken;
      var i := 0;
      while i < n
        invariant i <= n && i <= avail && |out| == i && Valid() && taken == from + i
        invariant out == sent[from..taken]
        invariant readers == old(readers) && writers == old(writers)
      {
        Wrapped(|sent|, taken);
        if nread == nwrite { break; }
        var ch := Take();
        if avail <= i { break; }
        out := out + [ch];
        i := i + 1;
      }
      writers := 0;
      return out, Delivered;
    }

    /** pipeclose for one end; the page goes back once both are closed. */
    method Close(writable: bool) returns (freed: bool)
      requires Valid()
      modifies this`readopen, this`writeopen, this`readers, this`writers
      ensures Valid() && (old(Awake()) ==> Awake())
      ensures freed <==> !readopen && !writeopen
      ensures writeopen == (old(writeopen) && !writable) && readopen == (old(readopen) && writable)
    {
      if writable {
        writeopen := false;
        readers := 0;
      } else {
        readopen := false;
        writers := 0;
      }
      freed := !readopen && !writeopen;
    }

    // ------------------------------------------------- runs

    ghost function View(): Stream
      reads this
    {
      Stream(sent, taken, readopen, writeopen)
    }

    method SendStep(op: Op) returns (r: Reply)
      requires Valid() && OpOk(op) && op.Send?
      modifies this, data
      ensures Valid() && View() == After(old(View()), op) && r == Answer(old(View()), op)
      ensures old(Awake()) && (op.turns == 0 || op.i + op.turns >= |op.src|) ==> Awake()
    {
      var j, end := Write(op.src, op.i, op.avail, op.turns);
      r := Took(j - op.i, end);
    }

    method ReceiveStep(op: Op) returns (r: Reply)
      requires Valid() && op.Receive?
      modifies this
      ensures Valid() && View() == After(old(View()), op) && r == Answer(old(View()), op)
      ensures old(Awake()) ==> Awake()
    {
      var out, end := Read(op.n, op.avail, op.killed);
      r := Gave(out, end);
    }

    /** One burst. */
    method Step(op: Op) returns (r: Reply)
      requires Valid() && OpOk(op)
      modifies this, data
      ensures Valid() && View() == After(old(View()), op) && r == Answer(old(View()), op)
      ensures old(Awake()) && Whole(op) ==> Awake()
    {
      match op {
        case Send(_, _, _, _) => r := SendStep(op);
        case Receive(_, _, _) => r := ReceiveStep(op);
        case Shut(writable) =>
          var freed := Close(writable);
          r := Shutdown(freed);
      }
    }

    /** Any interleaving of bursts of any readers and writers is the same on the stream, with
        the same replies; nobody oversleeps unless a writer is killed between two bytes. */
    method Run(ops: seq<Op>) returns (rs: seq<Reply>, ghost trace: seq<Stream>)
      requires Valid() && OpsOk(ops)
      modifies this, data
      ensures Valid() && |rs| == |ops| && History(ops, rs, trace)
      ensures trace[0] == old(View()) && trace[|ops|] == View()
      ensures old(Awake()) && Uncut(ops) ==> Awake()
    {
      rs, trace := [], [View()];
      while |rs| < |ops|
        invariant Valid() && History(ops, rs, trace) && trace[0] == old(View()) && trace[|rs|] == View()
        invariant old(Awake()) && Uncut(ops) ==> Awake()
      {
        HistoryOn(ops, rs, trace);
        var r := Step(ops[|rs|]);
        rs, trace := rs + [r], trace + [View()];
      }
    }
  }

  /** A read into a buffer that cannot be written takes a byte and delivers none. */
  method LostByte() returns (r: Ring, out: seq<nat>)
    ensures r.Valid() && r.sent == [7] && r.taken == 1 && out == []
  {
    r := new Ring();
    var i, stop := r.Write([7], 0, 1, 9);
    var end;
    out, end := r.Read(1, 0, false);
  }

  /** A writer killed between two bytes leaves a reader asleep with a byte in the ring. */
  method StuckReader() returns (r: Ring)
    ensures r.Valid() && !r.Awake() && r.readers == 1 && r.taken == 0 && r.sent == [7]
  {
    r := new Ring();
    var out, end := r.Read(1, 1, false);
    var i, stop := r.Write([7, 8], 0, 2, 1);
  }
}
