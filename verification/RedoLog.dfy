/**
 The redo log of kernel/log.c seen from the disk: the block writes that commit
 and recovery issue, and what is on disk when the machine stops between any two
 of them.
 */
module LogFormat {

  const LOGSIZE: nat := 30
  const BLOCKWORDS: nat := 256

  /** A disk block as 32-bit words. */
  type Block = b: seq<nat> | |b| == BLOCKWORDS witness seq(BLOCKWORDS, _ => 0)
  type Disk = map<nat, Block>
  datatype Write = Write(block: nat, data: Block)

  function Zeros(): Block {
    seq(BLOCKWORDS, _ => 0)
  }

  function Get(d: Disk, b: nat): Block {
    if b in d then d[b] else Zeros()
  }

  /** The disk after the writes of ws, each atomic and in order. */
  function Apply(d: Disk, ws: seq<Write>): Disk {
    if ws == [] then d
    else
      var n := |ws| - 1;
      Apply(d, ws[..n])[ws[n].block := ws[n].data]
  }

  lemma {:induction false} ApplyConcat(d: Disk, a: seq<Write>, b: seq<Write>)
    ensures Apply(d, a + b) == Apply(Apply(d, a), b)
  {
    if b == [] {
      assert a + b == a;
    } else {
      var n := |b| - 1;
      ApplyConcat(d, a, b[..n]);
      assert (a + b)[..|a| + n] == a + b[..n];
    }
  }

  // ------------------------------------------------- the header block

  /** The block numbers a header lists; a count that does not fit is read as none. */
  function Head(h: Block): seq<nat> {
    if h[0] <= LOGSIZE then h[1..1 + h[0]] else []
  }

  /** write_head: the count and the first entries change, the rest of the block stays. */
  function SetHead(h: Block, lh: seq<nat>): Block
    requires |lh| <= LOGSIZE
  {
    [|lh|] + lh + h[1 + |lh|..]
  }

  lemma HeadOfSetHead(h: Block, lh: seq<nat>)
    requires |lh| <= LOGSIZE
    ensures Head(SetHead(h, lh)) == lh && SetHead(h, lh)[0] == |lh|
    ensures forall i :: 0 <= i < |lh| ==> SetHead(h, lh)[1 + i] == lh[i]
    ensures forall i :: 1 + |lh| <= i < BLOCKWORDS ==> SetHead(h, lh)[i] == h[i]
  {
  }

  // ------------------------------------------------- where blocks live

  /** Where the superblock puts the log: sb.logstart and sb.nlog, header block included. */
  datatype Extent = Extent(start: nat, size: nat)

  type Area = a: Extent | a.size > 0 witness Extent(0, 1)

  predicate InLog(area: Area, b: nat) {
    area.start <= b < area.start + area.size
  }

  predicate Distinct(q: seq<nat>) {
    forall i, j :: 0 <= i < j < |q| ==> q[i] != q[j]
  }

  /** A transaction: distinct home blocks and the bytes they are to get. */
  datatype Tx = Tx(blocks: seq<nat>, data: seq<Block>)

  predicate TxOk(area: Area, tx: Tx) {
    && |tx.blocks| == |tx.data| && |tx.blocks| <= LOGSIZE && |tx.blocks| < area.size && Distinct(tx.blocks)
    && forall i :: 0 <= i < |tx.blocks| ==> !InLog(area, tx.blocks[i])
  }

  // ------------------------------------------------- the writes of commit and recovery

  function LogWrites(area: Area, tx: Tx, n: nat): seq<Write>
    requires n <= |tx.data|
  {
    seq(n, i requires 0 <= i < n => Write(area.start + 1 + i, tx.data[i]))
  }

  function InstallWrites(tx: Tx, n: nat): seq<Write>
    requires n <= |tx.data| == |tx.blocks|
  {
    seq(n, i requires 0 <= i < n => Write(tx.blocks[i], tx.data[i]))
  }

  /** commit with h in the header block: log, commit point, install, erase. */
  function CommitWrites(area: Area, h: Block, tx: Tx): seq<Write>
    requires |tx.blocks| == |tx.data| && |tx.blocks| <= LOGSIZE
  {
    var n := |tx.blocks|;
    LogWrites(area, tx, n) + [Write(area.start, SetHead(h, tx.blocks))]
    + InstallWrites(tx, n) + [Write(area.start, SetHead(SetHead(h, tx.blocks), []))]
  }

  function LogBlocks(area: Area, d: Disk, n: nat): seq<Block> {
    seq<Block>(n, i requires 0 <= i < n => Get(d, area.start + 1 + i))
  }

  /** The transaction that the log on disk holds. */
  function LoggedTx(area: Area, d: Disk): Tx {
    Tx(Head(Get(d, area.start)), LogBlocks(area, d, |Head(Get(d, area.start))|))
  }

  /** recover_from_log: install what the header lists, then erase it. */
  function RecoveryWrites(area: Area, d: Disk): seq<Write> {
    var tx := LoggedTx(area, d);
    InstallWrites(tx, |tx.blocks|) + [Write(area.start, SetHead(Get(d, area.start), []))]
  }

  function Recover(area: Area, d: Disk): Disk {
    Apply(d, RecoveryWrites(area, d))
  }

  /** Recovery is started again and again, the i-th time stopping after crashes[i] writes. */
  function RecoverCrashing(area: Area, d: Disk, crashes: seq<nat>): Disk
    decreases |crashes|
  {
    if crashes == [] then d
    else
      var ws := RecoveryWrites(area, d);
      var k := if crashes[0] <= |ws| then crashes[0] else |ws|;
      RecoverCrashing(area, Apply(d, ws[..k]), crashes[1..])
  }

  // ------------------------------------------------- what the file system sees

  /** The same bytes in every block outside the log. */
  ghost predicate SameHomeAt(area: Area, c: Disk, d: Disk, b: nat) {
    !InLog(area, b) ==> Get(d, b) == Get(c, b)
  }

  ghost predicate SameHome(area: Area, c: Disk, d: Disk) {
    forall b: nat :: SameHomeAt(area, c, d, b)
  }

  /** All blocks of the transaction replaced at once. */
  function Install(d: Disk, tx: Tx): Disk
    requires |tx.blocks| == |tx.data|
  {
    Apply(d, InstallWrites(tx, |tx.blocks|))
  }

  /** After n installs the first n blocks have their data and no other block changed. */
  lemma {:induction false} InstallAt(d: Disk, tx: Tx, n: nat, b: nat)
    requires |tx.blocks| == |tx.data| && n <= |tx.blocks| && Distinct(tx.blocks)
    ensures forall i :: 0 <= i < n && tx.blocks[i] == b ==> Get(Apply(d, InstallWrites(tx, n)), b) == tx.data[i]
    ensures b !in tx.blocks[..n] ==> Get(Apply(d, InstallWrites(tx, n)), b) == Get(d, b)
  {
    if n > 0 {
      InstallAt(d, tx, n - 1, b);
      assert InstallWrites(tx, n)[..n - 1] == InstallWrites(tx, n - 1);
      assert tx.blocks[..n] == tx.blocks[..n - 1] + [tx.blocks[n - 1]];
    }
  }

  lemma {:induction false} LogWritesAt(area: Area, d: Disk, tx: Tx, n: nat, b: nat)
    requires n <= |tx.data|
    ensures Get(Apply(d, LogWrites(area, tx, n)), b)
         == if area.start < b <= area.start + n then tx.data[b - area.start - 1] else Get(d, b)
  {
    if n > 0 {
      LogWritesAt(area, d, tx, n - 1, b);
      assert LogWrites(area, tx, n)[..n - 1] == LogWrites(area, tx, n - 1);
    }
  }

  lemma InstallWritesStep(d: Disk, tx: Tx, n: nat)
    requires |tx.blocks| == |tx.data| && n < |tx.blocks|
    ensures InstallWrites(tx, n + 1) == InstallWrites(tx, n) + [Write(tx.blocks[n], tx.data[n])]
    ensures Apply(d, InstallWrites(tx, n + 1)) == Apply(d, InstallWrites(tx, n))[tx.blocks[n] := tx.data[n]]
  {
    assert InstallWrites(tx, n + 1)[..n] == InstallWrites(tx, n);
  }

  lemma LogWritesStep(area: Area, tx: Tx, n: nat, d: Disk)
    requires n < |tx.data|
    ensures LogWrites(area, tx, n + 1) == LogWrites(area, tx, n) + [Write(area.start + 1 + n, tx.data[n])]
    ensures Apply(d, LogWrites(area, tx, n + 1)) == Apply(d, LogWrites(area, tx, n))[area.start + 1 + n := tx.data[n]]
  {
    assert LogWrites(area, tx, n + 1)[..n] == LogWrites(area, tx, n);
  }

  // ------------------------------------------------- the three states of a disk

  /** No committed transaction in the log, and the home blocks are those of h. */
  ghost predicate Idle(area: Area, h: Disk, d: Disk) {
    Head(Get(d, area.start)) == [] && SameHome(area, h, d)
  }

  /** tx is committed in the log; its home blocks are those of h or already installed. */
  ghost predicate Committed(area: Area, h: Disk, tx: Tx, d: Disk)
    requires TxOk(area, tx)
  {
    && LoggedTx(area, d) == tx
    && SameHome(area, Install(h, tx), Install(d, tx))
  }

  lemma SameHomeTrans(area: Area, a: Disk, b: Disk, c: Disk)
    requires SameHome(area, a, b) && SameHome(area, b, c)
    ensures SameHome(area, a, c)
  {
    forall x: nat ensures SameHomeAt(area, a, c, x) {
      assert SameHomeAt(area, a, b, x) && SameHomeAt(area, b, c, x);
    }
  }

  lemma SameHomeInstall(area: Area, a: Disk, b: Disk, tx: Tx)
    requires SameHome(area, a, b) && TxOk(area, tx)
    ensures SameHome(area, Install(a, tx), Install(b, tx))
  {
    forall x: nat ensures SameHomeAt(area, Install(a, tx), Install(b, tx), x) {
      assert SameHomeAt(area, a, b, x);
      InstallAt(a, tx, |tx.blocks|, x);
      InstallAt(b, tx, |tx.blocks|, x);
      if x in tx.blocks {
        var i :| 0 <= i < |tx.blocks| && tx.blocks[i] == x;
      } else {
        assert tx.blocks[..|tx.blocks|] == tx.blocks;
      }
    }
  }

  /** Writing the header changes no home block. */
  lemma HeadWriteHome(area: Area, d: Disk, h: Block)
    ensures SameHome(area, d, d[area.start := h])
  {
    var e := d[area.start := h];
    forall b: nat ensures SameHomeAt(area, d, e, b) {}
  }

  /** Installing part of tx and then all of it is installing all of it. */
  lemma InstallTwice(area: Area, d: Disk, tx: Tx, n: nat)
    requires TxOk(area, tx) && n <= |tx.blocks|
    ensures SameHome(area, Install(d, tx), Install(Apply(d, InstallWrites(tx, n)), tx))
  {
    var e := Apply(d, InstallWrites(tx, n));
    forall x: nat ensures SameHomeAt(area, Install(d, tx), Install(e, tx), x) {
      InstallAt(d, tx, |tx.blocks|, x);
      InstallAt(e, tx, |tx.blocks|, x);
      InstallAt(d, tx, n, x);
      if x in tx.blocks {
        var i :| 0 <= i < |tx.blocks| && tx.blocks[i] == x;
      } else {
        assert tx.blocks[..|tx.blocks|] == tx.blocks;
      }
    }
  }

  /** Installing does not touch the log. */
  lemma InstallKeepsLog(area: Area, d: Disk, tx: Tx, n: nat)
    requires TxOk(area, tx) && n <= |tx.blocks|
    ensures forall b: nat :: InLog(area, b) ==> Get(Apply(d, InstallWrites(tx, n)), b) == Get(d, b)
  {
    forall b: nat | InLog(area, b) ensures Get(Apply(d, InstallWrites(tx, n)), b) == Get(d, b) {
      InstallAt(d, tx, n, b);
    }
  }

  // ------------------------------------------------- commit, stopped after k writes

  lemma CommitPrefix(area: Area, h: Block, tx: Tx, k: nat)
    requires |tx.blocks| == |tx.data| && |tx.blocks| <= LOGSIZE && k <= 2 * |tx.blocks| + 2
    ensures |CommitWrites(area, h, tx)| == 2 * |tx.blocks| + 2
    ensures var n := |tx.blocks|;
            CommitWrites(area, h, tx)[..k] ==
              if k <= n then LogWrites(area, tx, k)
              else if k <= 2 * n + 1 then
                LogWrites(area, tx, n) + [Write(area.start, SetHead(h, tx.blocks))] + InstallWrites(tx, k - n - 1)
              else CommitWrites(area, h, tx)
  {
  }

  /** Before the header write the old contents are still the ones recovery will find. */
  lemma BeforeCommitPoint(area: Area, d: Disk, tx: Tx, k: nat)
    requires TxOk(area, tx) && Idle(area, d, d) && k <= |tx.blocks|
    ensures Idle(area, d, Apply(d, CommitWrites(area, Get(d, area.start), tx)[..k]))
  {
    CommitPrefix(area, Get(d, area.start), tx, k);
    var e := Apply(d, LogWrites(area, tx, k));
    LogWritesAt(area, d, tx, k, area.start);
    forall b: nat ensures SameHomeAt(area, d, e, b) {
      LogWritesAt(area, d, tx, k, b);
    }
  }

  /** The disk after the header write and n installs. */
  function CommittedDisk(area: Area, d: Disk, tx: Tx, n: nat): Disk
    requires |tx.blocks| == |tx.data| && |tx.blocks| <= LOGSIZE && n <= |tx.blocks|
  {
    Apply(Apply(d, LogWrites(area, tx, |tx.blocks|))[area.start := SetHead(Get(d, area.start), tx.blocks)],
          InstallWrites(tx, n))
  }

  lemma CommitReaches(area: Area, d: Disk, tx: Tx, n: nat)
    requires |tx.blocks| == |tx.data| && |tx.blocks| <= LOGSIZE && n <= |tx.blocks|
    ensures |tx.blocks| + 1 + n <= |CommitWrites(area, Get(d, area.start), tx)|
    ensures Apply(d, CommitWrites(area, Get(d, area.start), tx)[..|tx.blocks| + 1 + n]) == CommittedDisk(area, d, tx, n)
  {
    var m := |tx.blocks|;
    var w := Write(area.start, SetHead(Get(d, area.start), tx.blocks));
    CommitPrefix(area, Get(d, area.start), tx, m + 1 + n);
    ApplyConcat(d, LogWrites(area, tx, m), [w]);
    assert [w][..0] == [];
    ApplyConcat(d, LogWrites(area, tx, m) + [w], InstallWrites(tx, n));
  }

  /** From the header write on, recovery will find the whole transaction. */
  lemma AfterCommitPoint(area: Area, d: Disk, tx: Tx, n: nat)
    requires TxOk(area, tx) && n <= |tx.blocks|
    ensures Committed(area, d, tx, CommittedDisk(area, d, tx, n))
  {
    CommittedLog(area, d, tx, n);
    CommittedHome(area, d, tx, n);
  }

  lemma CommittedLog(area: Area, d: Disk, tx: Tx, n: nat)
    requires TxOk(area, tx) && n <= |tx.blocks|
    ensures LoggedTx(area, CommittedDisk(area, d, tx, n)) == tx
  {
    var m := |tx.blocks|;
    var a := Apply(d, LogWrites(area, tx, m));
    var b := a[area.start := SetHead(Get(d, area.start), tx.blocks)];
    var c := Apply(b, InstallWrites(tx, n));
    HeadOfSetHead(Get(d, area.start), tx.blocks);
    InstallKeepsLog(area, b, tx, n);
    assert InLog(area, area.start);
    forall i | 0 <= i < m ensures Get(c, area.start + 1 + i) == tx.data[i] {
      assert InLog(area, area.start + 1 + i);
      LogWritesAt(area, d, tx, m, area.start + 1 + i);
    }
    LogBlocksAre(area, c, tx.data);
  }

  lemma LogBlocksAre(area: Area, c: Disk, data: seq<Block>)
    requires forall i :: 0 <= i < |data| ==> Get(c, area.start + 1 + i) == data[i]
    ensures LogBlocks(area, c, |data|) == data
  {
  }

  lemma CommittedHome(area: Area, d: Disk, tx: Tx, n: nat)
    requires TxOk(area, tx) && n <= |tx.blocks|
    ensures SameHome(area, Install(d, tx), Install(CommittedDisk(area, d, tx, n), tx))
  {
    var m := |tx.blocks|;
    var a := Apply(d, LogWrites(area, tx, m));
    var b := a[area.start := SetHead(Get(d, area.start), tx.blocks)];
    forall x: nat ensures SameHomeAt(area, d, a, x) {
      LogWritesAt(area, d, tx, m, x);
    }
    HeadWriteHome(area, a, SetHead(Get(d, area.start), tx.blocks));
    SameHomeTrans(area, d, a, b);
    SameHomeInstall(area, d, b, tx);
    InstallTwice(area, b, tx, n);
    SameHomeTrans(area, Install(d, tx), Install(b, tx), Install(Apply(b, InstallWrites(tx, n)), tx));
  }

  lemma CommitTotal(area: Area, d: Disk, tx: Tx)
    requires TxOk(area, tx)
    ensures var h := SetHead(Get(d, area.start), tx.blocks);
            var c := CommittedDisk(area, d, tx, |tx.blocks|);
            && Get(c, area.start) == h
            && Apply(d, CommitWrites(area, Get(d, area.start), tx)) == c[area.start := SetHead(h, [])]
  {
    var m := |tx.blocks|;
    var ws := CommitWrites(area, Get(d, area.start), tx);
    CommitReaches(area, d, tx, m);
    CommitPrefix(area, Get(d, area.start), tx, 2 * m + 1);
    var b := Apply(d, LogWrites(area, tx, m))[area.start := SetHead(Get(d, area.start), tx.blocks)];
    InstallKeepsLog(area, b, tx, m);
    assert InLog(area, area.start);
  }

  lemma CommitTrace(t: seq<Write>, area: Area, h: Block, tx: Tx)
    requires |tx.blocks| == |tx.data| && |tx.blocks| <= LOGSIZE
    ensures t + LogWrites(area, tx, |tx.blocks|) + [Write(area.start, SetHead(h, tx.blocks))]
              + InstallWrites(tx, |tx.blocks|) + [Write(area.start, SetHead(SetHead(h, tx.blocks), []))]
         == t + CommitWrites(area, h, tx)
  {
  }

  lemma CommittedInstall(area: Area, d: Disk, tx: Tx)
    requires TxOk(area, tx)
    ensures Install(CommittedDisk(area, d, tx, 0), tx) == CommittedDisk(area, d, tx, |tx.blocks|)
  {
    assert InstallWrites(tx, 0) == [];
  }

  /** The last write of commit erases the transaction. */
  lemma CommitFinishes(area: Area, d: Disk, tx: Tx)
    requires TxOk(area, tx)
    ensures Idle(area, Install(d, tx), Apply(d, CommitWrites(area, Get(d, area.start), tx)))
  {
    var m := |tx.blocks|;
    var h := SetHead(Get(d, area.start), tx.blocks);
    var c := CommittedDisk(area, d, tx, m);
    CommitTotal(area, d, tx);
    HeadOfSetHead(h, []);
    HeadWriteHome(area, c, SetHead(h, []));
    AfterCommitPoint(area, d, tx, m);
    InstalledIsFixed(area, c, d, tx);
    SameHomeTrans(area, Install(d, tx), c, c[area.start := SetHead(h, [])]);
  }

  lemma InstalledIsFixed(area: Area, c: Disk, d: Disk, tx: Tx)
    requires TxOk(area, tx) && c == CommittedDisk(area, d, tx, |tx.blocks|)
    requires SameHome(area, Install(d, tx), Install(c, tx))
    ensures SameHome(area, Install(d, tx), c)
  {
    var m := |tx.blocks|;
    var b := Apply(d, LogWrites(area, tx, m))[area.start := SetHead(Get(d, area.start), tx.blocks)];
    forall x: nat ensures SameHomeAt(area, Install(d, tx), c, x) {
      assert SameHomeAt(area, Install(d, tx), Install(c, tx), x);
      InstallAt(c, tx, m, x);
      InstallAt(b, tx, m, x);
      if x in tx.blocks {
        var i :| 0 <= i < m && tx.blocks[i] == x;
      } else {
        assert tx.blocks[..m] == tx.blocks;
      }
    }
  }

  // ------------------------------------------------- recovery, stopped after k writes

  lemma RecoveryPrefix(area: Area, d: Disk, k: nat)
    requires k <= |RecoveryWrites(area, d)|
    ensures |RecoveryWrites(area, d)| == |LoggedTx(area, d).blocks| + 1
    ensures k <= |LoggedTx(area, d).blocks| ==>
              RecoveryWrites(area, d)[..k] == InstallWrites(LoggedTx(area, d), k)
    ensures k == |LoggedTx(area, d).blocks| + 1 ==>
              Apply(d, RecoveryWrites(area, d)[..k])
              == Install(d, LoggedTx(area, d))[area.start := SetHead(Get(d, area.start), [])]
  {
    var ws := RecoveryWrites(area, d);
    var m := |LoggedTx(area, d).blocks|;
    assert k == m + 1 ==> ws[..k] == ws && ws[..m] == InstallWrites(LoggedTx(area, d), m);
  }

  lemma RecoverTotal(area: Area, d: Disk)
    ensures Recover(area, d) == Install(d, LoggedTx(area, d))[area.start := SetHead(Get(d, area.start), [])]
  {
    var ws := RecoveryWrites(area, d);
    RecoveryPrefix(area, d, |ws|);
    assert ws[..|ws|] == ws;
  }

  /** With nothing committed, recovery never changes a home block. */
  lemma RecoverIdle(area: Area, h: Disk, d: Disk, k: nat)
    requires Idle(area, h, d) && k <= |RecoveryWrites(area, d)|
    ensures Idle(area, h, Apply(d, RecoveryWrites(area, d)[..k]))
  {
    RecoveryPrefix(area, d, k);
    HeadOfSetHead(Get(d, area.start), []);
    HeadWriteHome(area, d, SetHead(Get(d, area.start), []));
    if k == 1 {
      assert Install(d, LoggedTx(area, d)) == d;
      SameHomeTrans(area, h, d, d[area.start := SetHead(Get(d, area.start), [])]);
    }
  }

  /** A committed transaction stays committed until recovery erases it, fully installed. */
  lemma RecoverCommitted(area: Area, h: Disk, tx: Tx, d: Disk, k: nat)
    requires TxOk(area, tx) && Committed(area, h, tx, d) && k <= |RecoveryWrites(area, d)|
    ensures var e := Apply(d, RecoveryWrites(area, d)[..k]);
            if k <= |tx.blocks| then Committed(area, h, tx, e) else Idle(area, Install(h, tx), e)
  {
    var e := Apply(d, RecoveryWrites(area, d)[..k]);
    RecoveryPrefix(area, d, k);
    if k <= |tx.blocks| {
      InstallKeepsLog(area, d, tx, k);
      assert InLog(area, area.start);
      var was, now := LogBlocks(area, d, |tx.blocks|), LogBlocks(area, e, |tx.blocks|);
      forall i | 0 <= i < |tx.blocks| ensures now[i] == was[i] {
        assert InLog(area, area.start + 1 + i);
      }
      assert now == was;
      InstallTwice(area, d, tx, k);
      SameHomeTrans(area, Install(h, tx), Install(d, tx), Install(e, tx));
    } else {
      HeadOfSetHead(Get(d, area.start), []);
      HeadWriteHome(area, Install(d, tx), SetHead(Get(d, area.start), []));
      SameHomeTrans(area, Install(h, tx), Install(d, tx), e);
    }
  }

  /** Recovery interrupted any number of times, then run to the end. */
  lemma {:induction false} RecoverIdleCrashing(area: Area, h: Disk, d: Disk, crashes: seq<nat>)
    requires Idle(area, h, d)
    ensures Idle(area, h, Recover(area, RecoverCrashing(area, d, crashes)))
    decreases |crashes|
  {
    var ws := RecoveryWrites(area, d);
    if crashes == [] {
      RecoverIdle(area, h, d, |ws|);
      assert ws[..|ws|] == ws;
    } else {
      var k := if crashes[0] <= |ws| then crashes[0] else |ws|;
      RecoverIdle(area, h, d, k);
      RecoverIdleCrashing(area, h, Apply(d, ws[..k]), crashes[1..]);
    }
  }

  lemma {:induction false} RecoverCommittedCrashing(area: Area, h: Disk, tx: Tx, d: Disk, crashes: seq<nat>)
    requires TxOk(area, tx) && Committed(area, h, tx, d)
    ensures Idle(area, Install(h, tx), Recover(area, RecoverCrashing(area, d, crashes)))
    decreases |crashes|
  {
    var ws := RecoveryWrites(area, d);
    RecoveryPrefix(area, d, 0);
    if crashes == [] {
      RecoverCommitted(area, h, tx, d, |ws|);
      assert ws[..|ws|] == ws;
    } else {
      var k := if crashes[0] <= |ws| then crashes[0] else |ws|;
      var e := Apply(d, ws[..k]);
      RecoverCommitted(area, h, tx, d, k);
      if k <= |tx.blocks| {
        RecoverCommittedCrashing(area, h, tx, e, crashes[1..]);
      } else {
        RecoverIdleCrashing(area, Install(h, tx), e, crashes[1..]);
      }
    }
  }

  // ------------------------------------------------- main results

  /** The machine stops after k writes of a commit, then recovery is interrupted as in
      `crashes` and finally completes: all of the transaction is there, or none of it. */
  function CrashInCommit(area: Area, d: Disk, tx: Tx, k: nat, crashes: seq<nat>): Disk
    requires |tx.blocks| == |tx.data| && |tx.blocks| <= LOGSIZE
  {
    var ws := CommitWrites(area, Get(d, area.start), tx);
    var stop := Apply(d, ws[..if k <= |ws| then k else |ws|]);
    Recover(area, RecoverCrashing(area, stop, crashes))
  }

  lemma CrashAtomicity(area: Area, d: Disk, tx: Tx, k: nat, crashes: seq<nat>)
    requires TxOk(area, tx) && Idle(area, d, d)
    ensures var e := CrashInCommit(area, d, tx, k, crashes);
            Idle(area, if k <= |tx.blocks| then d else Install(d, tx), e)
  {
    var m := |tx.blocks|;
    var ws := CommitWrites(area, Get(d, area.start), tx);
    CommitPrefix(area, Get(d, area.start), tx, 0);
    var n := if k <= |ws| then k else |ws|;
    var stop := Apply(d, ws[..n]);
    if k <= m {
      BeforeCommitPoint(area, d, tx, k);
      RecoverIdleCrashing(area, d, stop, crashes);
    } else if n < |ws| {
      CommitReaches(area, d, tx, n - m - 1);
      AfterCommitPoint(area, d, tx, n - m - 1);
      RecoverCommittedCrashing(area, d, tx, stop, crashes);
    } else {
      assert ws[..n] == ws;
      CommitFinishes(area, d, tx);
      RecoverIdleCrashing(area, Install(d, tx), stop, crashes);
    }
  }

  /** Recovering a recovered disk changes nothing at all. */
  lemma RecoverIdempotent(area: Area, d: Disk)
    ensures Recover(area, Recover(area, d)) == Recover(area, d)
  {
    var e := Recover(area, d);
    var ws := RecoveryWrites(area, d);
    RecoveryPrefix(area, d, |ws|);
    assert ws[..|ws|] == ws;
    HeadOfSetHead(Get(d, area.start), []);
    var us := RecoveryWrites(area, e);
    RecoveryPrefix(area, e, |us|);
    assert us[..|us|] == us;
    assert Install(e, LoggedTx(area, e)) == e;
    assert SetHead(SetHead(Get(d, area.start), []), []) == SetHead(Get(d, area.start), []);
  }

  /** One thing that can happen between two idle moments. */
  datatype Event = Commits(tx: Tx) | Crashes(tx: Tx, k: nat, crashes: seq<nat>)

  function DiskAfter(area: Area, d: Disk, e: Event): Disk
    requires |e.tx.blocks| == |e.tx.data| && |e.tx.blocks| <= LOGSIZE
  {
    match e
    case Commits(tx) => Apply(d, CommitWrites(area, Get(d, area.start), tx))
    case Crashes(tx, k, crashes) => CrashInCommit(area, d, tx, k, crashes)
  }

  /** The same event on a disk whose transactions are atomic. */
  function AtomicAfter(d: Disk, e: Event): Disk
    requires |e.tx.blocks| == |e.tx.data|
  {
    if e.Commits? || e.k > |e.tx.blocks| then Install(d, e.tx) else d
  }

  predicate EventsOk(area: Area, es: seq<Event>) {
    forall i :: 0 <= i < |es| ==> TxOk(area, es[i].tx)
  }

  function DiskRun(area: Area, d: Disk, es: seq<Event>): Disk
    requires EventsOk(area, es)
  {
    if es == [] then d
    else var n := |es| - 1; DiskAfter(area, DiskRun(area, d, es[..n]), es[n])
  }

  function AtomicRun(area: Area, d: Disk, es: seq<Event>): Disk
    requires EventsOk(area, es)
  {
    if es == [] then d
    else var n := |es| - 1; AtomicAfter(AtomicRun(area, d, es[..n]), es[n])
  }

  /** Over every run of commits and crashes the home blocks are those of atomic transactions. */
  lemma {:induction false} CrashSafety(area: Area, d: Disk, es: seq<Event>)
    requires EventsOk(area, es) && Idle(area, d, d)
    ensures Idle(area, AtomicRun(area, d, es), DiskRun(area, d, es))
  {
    if es != [] {
      var n := |es| - 1;
      CrashSafety(area, d, es[..n]);
      var a := AtomicRun(area, d, es[..n]);
      var c := DiskRun(area, d, es[..n]);
      var e := es[n];
      SameHomeRefl(area, c);
      match e {
        case Commits(tx) => CommitFinishes(area, c, tx);
        case Crashes(tx, k, crashes) => CrashAtomicity(area, c, tx, k, crashes);
      }
      SameHomeInstall(area, a, c, e.tx);
      SameHomeTrans(area, AtomicAfter(a, e), AtomicAfter(c, e), DiskAfter(area, c, e));
    }
  }

  lemma SameHomeRefl(area: Area, d: Disk)
    ensures SameHome(area, d, d)
  {
    forall b: nat ensures SameHomeAt(area, d, d, b) {}
  }
}

/**
 kernel/log.c over a buffer cache of NBUF buffers.  Disk writes are recorded in `trace`, so
 that a crash is a prefix of it.  A bread that finds its block in no buffer recycles one that
 nobody references; if there is none, that is the panic of bget.
 */
module RedoLog {
  import opened LogFormat

  const NBUF: nat := 30

  /** Bytes of the listed blocks. */
  function DataOf(m: map<nat, Block>, blocks: seq<nat>): seq<Block> {
    seq<Block>(|blocks|, i requires 0 <= i < |blocks| => Get(m, blocks[i]))
  }

  /** The listed blocks have the same bytes in both maps. */
  ghost predicate Kept(blocks: seq<nat>, was: map<nat, Block>, now: map<nat, Block>) {
    forall x :: x in blocks ==> Get(now, x) == Get(was, x)
  }

  // ------------------------------------------------- counting buffers

  function Elems(q: seq<nat>): set<nat> {
    set x | x in q
  }

  lemma {:induction false} DistinctCount(q: seq<nat>)
    requires Distinct(q)
    ensures |Elems(q)| == |q|
  {
    if q != [] {
      var n := |q| - 1;
      DistinctCount(q[..n]);
      assert Elems(q) == Elems(q[..n]) + {q[n]};
    }
  }

  lemma {:induction false} SubsetCount(a: set<nat>, b: set<nat>)
    requires a <= b
    ensures |a| <= |b| && (|a| == |b| ==> a == b)
    decreases |a|
  {
    if a != {} {
      var x :| x in a;
      SubsetCount(a - {x}, b - {x});
      assert a == (a - {x}) + {x} && b == (b - {x}) + {x};
    }
  }

  /** A smaller part of a set leaves something over. */
  lemma Spare(busy: set<nat>, all: set<nat>) returns (x: nat)
    requires busy <= all && |busy| < |all|
    ensures x in all && x !in busy
  {
    var rest := all - busy;
    assert all == busy + rest && busy !! rest;
    x :| x in rest;
  }

  /** The dirty blocks before and after a turn of install_trans. */
  lemma TailSplit(lh: seq<nat>, tail: nat, dirty: seq<nat>, less: seq<nat>, unpin: bool)
    requires Distinct(lh) && tail < |lh|
    requires dirty == if unpin then lh[tail..] else []
    requires less == if unpin then lh[tail + 1..] else []
    ensures Distinct(dirty) && lh[tail] !in less && forall x :: x in dirty <==> x in less || (unpin && x == lh[tail])
  {
    if unpin { assert dirty == [lh[tail]] + less; }
  }

  lemma After<T>(a: seq<T>, b: seq<T>)
    ensures (a + b)[|a|..] == b
  {
  }

  // ------------------------------------------------- the buffers

  type Cache = map<nat, Block>

  /** The dirty blocks are cached and pinned, and no others are pinned; any other cached
      block has the bytes of the disk. */
  ghost predicate CleanAt(c: Cache, d: Disk, pins: set<nat>, dirty: seq<nat>, b: nat) {
    && (b in pins <==> b in dirty) && (b in dirty ==> b in c)
    && (b !in dirty && b in c ==> c[b] == Get(d, b))
  }

  ghost predicate Sound(c: Cache, d: Disk, pins: set<nat>, dirty: seq<nat>) {
    |c| <= NBUF && forall b: nat :: CleanAt(c, d, pins, dirty, b)
  }

  /** The pinned blocks are as many as the dirty ones. */
  lemma PinCount(c: Cache, d: Disk, pins: set<nat>, dirty: seq<nat>)
    requires Sound(c, d, pins, dirty) && Distinct(dirty)
    ensures |pins| == |dirty|
  {
    forall x: nat ensures x in pins <==> x in Elems(dirty) { assert CleanAt(c, d, pins, dirty, x); }
    assert pins == Elems(dirty);
    DistinctCount(dirty);
  }

  /** The referenced blocks are cached; with NBUF of them nothing else is. */
  lemma Busy(c: Cache, d: Disk, pins: set<nat>, held: set<nat>, dirty: seq<nat>)
    requires Sound(c, d, pins, dirty) && held <= c.Keys
    ensures pins + held <= c.Keys && |pins + held| <= |c.Keys| == |c|
    ensures |pins + held| >= NBUF ==> c.Keys == pins + held
  {
    forall x | x in pins ensures x in c { assert CleanAt(c, d, pins, dirty, x); }
    SubsetCount(pins + held, c.Keys);
  }

  /** Another block takes the buffer of one that is not pinned. */
  lemma DropKeeps(c: Cache, d: Disk, pins: set<nat>, dirty: seq<nat>, x: nat)
    requires Sound(c, d, pins, dirty) && x in c && x !in pins
    ensures Sound(c - {x}, d, pins, dirty) && |c - {x}| == |c| - 1 && Kept(dirty, c, c - {x})
  {
    var e := c - {x};
    assert e.Keys == c.Keys - {x} && c.Keys == e.Keys + {x};
    forall b: nat ensures CleanAt(e, d, pins, dirty, b) && (b in dirty ==> Get(e, b) == Get(c, b)) {
      assert CleanAt(c, d, pins, dirty, b) && CleanAt(c, d, pins, dirty, x);
    }
  }

  lemma FillCount(c: Cache, b: nat, data: Block)
    requires b !in c
    ensures |c[b := data]| == |c| + 1
  {
    assert c[b := data].Keys == c.Keys + {b};
  }

  lemma FillKeeps(c: Cache, d: Disk, pins: set<nat>, dirty: seq<nat>, b: nat)
    requires Sound(c, d, pins, dirty) && b !in c && |c| < NBUF
    ensures Sound(c[b := Get(d, b)], d, pins, dirty) && Kept(dirty, c, c[b := Get(d, b)])
  {
    var e := c[b := Get(d, b)];
    FillCount(c, b, Get(d, b));
    forall x: nat ensures CleanAt(e, d, pins, dirty, x) && (x in dirty ==> Get(e, x) == Get(c, x)) {
      assert CleanAt(c, d, pins, dirty, x);
    }
  }

  /** A cached block goes to the disk with new bytes; it may be unpinned then. */
  lemma WriteKeeps(c: Cache, d: Disk, pins: set<nat>, dirty: seq<nat>, less: seq<nat>, b: nat, data: Block, unpin: bool)
    requires Sound(c, d, pins, dirty) && b in c && b !in less
    requires forall x :: x in dirty <==> x in less || (unpin && x == b)
    ensures Sound(c[b := data], d[b := data], if unpin then pins - {b} else pins, less) && Kept(less, c, c[b := data])
  {
    var e, f, q := c[b := data], d[b := data], if unpin then pins - {b} else pins;
    assert e.Keys == c.Keys;
    forall x: nat ensures CleanAt(e, f, q, less, x) { assert CleanAt(c, d, pins, dirty, x); }
  }

  /** A cached block with new bytes is pinned, if it is not already. */
  lemma LogKeeps(c: Cache, d: Disk, pins: set<nat>, lh: seq<nat>, b: nat, data: Block)
    requires Sound(c, d, pins, lh) && b in c
    ensures b in lh ==> Sound(c[b := data], d, pins, lh)
    ensures b !in lh ==> Sound(c[b := data], d, pins + {b}, lh + [b])
  {
    var e, q, more := c[b := data], if b in lh then pins else pins + {b}, if b in lh then lh else lh + [b];
    assert e.Keys == c.Keys;
    forall x: nat ensures CleanAt(e, d, q, more, x) { assert CleanAt(c, d, pins, lh, x); }
  }

  class Log {
    const area: Area                 // log.start and log.size, as the superblock gives them
    var disk: Disk
    var cache: Cache                 // the blocks in the buffers, with their bytes
    var pinned: set<nat>             // the blocks log_write has pinned
    var lh: seq<nat>
    var trace: seq<Write>            // the writes the disk has carried out, in order

    ghost predicate CacheOk(dirty: seq<nat>)
      reads this`cache, this`disk, this`pinned
    {
      Sound(cache, disk, pinned, dirty)
    }

    /** The transaction being collected: the logged blocks and their cached bytes. */
    ghost function Current(): Tx
      reads this
    {
      Tx(lh, DataOf(cache, lh))
    }

    ghost predicate HeaderOk()
      reads this`lh
    {
      && |lh| <= LOGSIZE && |lh| < area.size && Distinct(lh)
      && (forall i :: 0 <= i < |lh| ==> !InLog(area, lh[i]))
    }

    /** Between commits: the log on disk is empty, and the logged blocks are cached and pinned. */
    ghost predicate Valid()
      reads this
    {
      HeaderOk() && CacheOk(lh) && Head(Get(disk, area.start)) == []
    }

    /** A machine that has just booted from a disk whose log was written by this code. */
    constructor (area: Area, disk: Disk)
      requires TxOk(area, LoggedTx(area, disk))
      ensures Valid() && lh == [] && this.area == area
      ensures trace == RecoveryWrites(area, disk) && this.disk == Recover(area, disk)
    {
      this.area, this.disk := area, disk;
      cache, pinned, lh := map[], {}, [];
      trace := [];
      new;
      RecoverFromLog();
    }

    // -------------------------------------------------------------- bio.c, as the log uses it

    /** bget finds a buffer that nobody references; if all have a block, one is recycled. */
    method Recycle(held: set<nat>, ghost dirty: seq<nat>)
      requires CacheOk(dirty) && held <= cache.Keys && |pinned + held| < NBUF
      modifies this`cache
      ensures CacheOk(dirty) && held <= cache.Keys && |cache| < NBUF && Kept(dirty, old(cache), cache)
      ensures cache.Keys <= old(cache.Keys)
    {
      if |cache| >= NBUF {
        Busy(cache, disk, pinned, held, dirty);
        ghost var y := Spare(pinned + held, cache.Keys);
        var x :| x in cache.Keys && x !in pinned && x !in held;
        DropKeeps(cache, disk, pinned, dirty, x);
        cache := cache - {x};
      }
    }

    /** bread, by a caller who holds the buffers `held`: the cached bytes, or those of the disk
        in a recycled buffer; the panic of bget when the block is not cached and every buffer
        is referenced. */
    method Bread(b: nat, held: set<nat>, ghost dirty: seq<nat>) returns (ok: bool, data: Block)
      requires CacheOk(dirty) && held <= cache.Keys
      modifies this`cache
      ensures ok <==> b in old(cache) || |pinned + held| < NBUF
      ensures b !in held ==> (ok <==> b in pinned || |pinned + held| < NBUF)
      ensures !ok ==> cache == old(cache)
      ensures ok ==> b in cache && data == cache[b] && held <= cache.Keys
      ensures ok && b !in dirty ==> data == Get(disk, b)
      ensures CacheOk(dirty) && Kept(dirty, old(cache), cache)
    {
      Busy(cache, disk, pinned, held, dirty);
      if b !in cache {
        if |pinned + held| >= NBUF { return false, Zeros(); }
        Recycle(held, dirty);
        FillKeeps(cache, disk, pinned, dirty, b);
        cache := cache[b := Get(disk, b)];
      }
      assert CleanAt(cache, disk, pinned, dirty, b);
      return true, cache[b];
    }

    /** The holder of the buffer of b fills it with data and calls bwrite. */
    method Bwrite(b: nat, data: Block, ghost dirty: seq<nat>)
      requires CacheOk(dirty) && b !in dirty && b in cache
      modifies this`cache, this`disk, this`trace
      ensures CacheOk(dirty) && disk == old(disk)[b := data] && trace == old(trace) + [Write(b, data)]
      ensures Kept(dirty, old(cache), cache)
    {
      WriteKeeps(cache, disk, pinned, dirty, dirty, b, data, false);
      cache := cache[b := data];
      disk := disk[b := data];
      trace := trace + [Write(b, data)];
    }

    // -------------------------------------------------------------- log.c

    /** The holder of a buffer changes it to data and calls log_write. */
    method LogWrite(b: nat, data: Block) returns (ok: bool)
      requires Valid() && b in cache && !InLog(area, b)
      modifies this`cache, this`lh, this`pinned
      ensures ok == (old(|lh|) < LOGSIZE && old(|lh|) + 1 < area.size)
      ensures ok ==> Valid() && cache == old(cache)[b := data]
      ensures ok ==> lh == if b in old(lh) then old(lh) else old(lh) + [b]
    {
      if |lh| >= LOGSIZE || |lh| + 1 >= area.size {
        return false;
      }
      LogKeeps(cache, disk, pinned, lh, b, data);
      cache := cache[b := data];
      var i := 0;
      while i < |lh| && lh[i] != b
        invariant 0 <= i <= |lh| && b !in lh[..i]
      {
        i := i + 1;
      }
      ghost var was := lh;
      if i == |lh| {
        pinned := pinned + {b};
        lh := lh + [b];
      } else {
        lh := lh[i := b];
        assert lh == was;
      }
      ok := true;
    }

    /** One turn of the loop of write_log. */
    method LogTurn(tail: nat, ghost data: Block) returns (ok: bool)
      requires HeaderOk() && CacheOk(lh) && tail < |lh| && Get(cache, lh[tail]) == data
      modifies this`cache, this`disk, this`trace
      ensures ok <==> |lh| < NBUF
      ensures !ok ==> disk == old(disk) && trace == old(trace)
      ensures ok ==> CacheOk(lh) && Kept(lh, old(cache), cache)
      ensures ok ==> disk == old(disk)[area.start + 1 + tail := data] && trace == old(trace) + [Write(area.start + 1 + tail, data)]
    {
      var home, to := lh[tail], area.start + 1 + tail;
      assert InLog(area, to) && CleanAt(cache, disk, pinned, lh, to) && CleanAt(cache, disk, pinned, lh, home);
      PinCount(cache, disk, pinned, lh);
      assert pinned + {} == pinned;
      var block, from;
      ok, block := Bread(to, {}, lh);
      if !ok { return; }
      ok, from := Bread(home, {to}, lh);
      Bwrite(to, from, lh);
    }

    /** After `tail` turns of write_log, begun with disk d, writes t and transaction tx. */
    ghost predicate Logged(d: Disk, t: seq<Write>, tx: Tx, tail: nat)
      reads this
    {
      && HeaderOk() && CacheOk(lh) && tx.blocks == lh && |tx.data| == |lh| && tail <= |lh|
      && (forall i :: 0 <= i < |lh| ==> Get(cache, lh[i]) == tx.data[i])
      && trace == t + LogWrites(area, tx, tail) && disk == Apply(d, LogWrites(area, tx, tail))
    }

    method LogNext(tail: nat, ghost d: Disk, ghost t: seq<Write>, ghost tx: Tx) returns (ok: bool)
      requires Logged(d, t, tx, tail) && tail < |lh|
      modifies this`cache, this`disk, this`trace
      ensures ok <==> |lh| < NBUF
      ensures if ok then Logged(d, t, tx, tail + 1) else disk == old(disk) && trace == old(trace)
    {
      ok := LogTurn(tail, tx.data[tail]);
      if ok { LogWritesStep(area, tx, tail, d); }
    }

    /** write_log: all of the log blocks, or the panic of bget before the first. */
    method WriteLog() returns (ok: bool)
      requires HeaderOk() && CacheOk(lh)
      modifies this`cache, this`disk, this`trace
      ensures ok <==> |lh| < NBUF
      ensures !ok ==> disk == old(disk) && trace == old(trace)
      ensures ok ==> CacheOk(lh) && Current() == old(Current())
      ensures ok ==> trace == old(trace) + LogWrites(area, old(Current()), |lh|)
      ensures ok ==> disk == Apply(old(disk), LogWrites(area, old(Current()), |lh|))
    {
      ghost var d, t, tx := disk, trace, Current();
      var tail := 0;
      while tail < |lh|
        invariant Logged(d, t, tx, tail) && (tail > 0 ==> |lh| < NBUF)
      {
        ok := LogNext(tail, d, t, tx);
        if !ok { return; }
        tail := tail + 1;
      }
      assert DataOf(cache, lh) == tx.data;
      ok := true;
    }

    /** write_head: one write of the header block. */
    method WriteHead(ghost dirty: seq<nat>) returns (ok: bool)
      requires HeaderOk() && CacheOk(dirty) && Distinct(dirty) && area.start !in dirty
      modifies this`cache, this`disk, this`trace
      ensures ok <==> |dirty| < NBUF
      ensures !ok ==> disk == old(disk) && trace == old(trace)
      ensures ok ==> CacheOk(dirty) && Kept(dirty, old(cache), cache)
      ensures ok ==> disk == old(disk)[area.start := SetHead(Get(old(disk), area.start), lh)]
      ensures ok ==> trace == old(trace) + [Write(area.start, SetHead(Get(old(disk), area.start), lh))]
    {
      assert CleanAt(cache, disk, pinned, dirty, area.start);
      PinCount(cache, disk, pinned, dirty);
      assert pinned + {} == pinned;
      var h;
      ok, h := Bread(area.start, {}, dirty);
      if !ok { return; }
      h := SetHead(h, lh);
      Bwrite(area.start, h, dirty);
    }

    /** After `tail` turns of install_trans, begun with disk d and writes t. */
    ghost predicate Installed(recovering: bool, d: Disk, t: seq<Write>, tx: Tx, tail: nat)
      reads this
    {
      && TxOk(area, tx) && tx.blocks == lh && tail <= |lh| && tx == LoggedTx(area, d)
      && CacheOk(if recovering then [] else lh[tail..])
      && trace == t + InstallWrites(tx, tail) && disk == Apply(d, InstallWrites(tx, tail))
    }

    method InstallNext(recovering: bool, tail: nat, ghost d: Disk, ghost t: seq<Write>, ghost tx: Tx) returns (ok: bool)
      requires Installed(recovering, d, t, tx, tail) && tail < |lh|
      modifies this`cache, this`disk, this`trace, this`pinned
      ensures ok <==> recovering || |lh| - tail < NBUF
      ensures ok ==> Installed(recovering, d, t, tx, tail + 1)
    {
      InstallKeepsLog(area, d, tx, tail);
      assert InLog(area, area.start + 1 + tail);
      assert Get(disk, area.start + 1 + tail) == tx.data[tail];
      ok := InstallTurn(recovering, tail, tx.data[tail]);
      if ok { InstallWritesStep(d, tx, tail); }
    }

    /** Copy the logged blocks home.  tx is what the log on disk holds. */
    method InstallTrans(recovering: bool, ghost tx: Tx) returns (ok: bool)
      requires TxOk(area, tx) && tx == LoggedTx(area, disk) && tx.blocks == lh
      requires CacheOk(if recovering then [] else lh)
      modifies this`cache, this`disk, this`trace, this`pinned
      ensures ok <==> recovering || |lh| < NBUF
      ensures ok ==> CacheOk([]) && trace == old(trace) + InstallWrites(tx, |lh|)
      ensures ok ==> disk == Install(old(disk), tx)
    {
      ghost var d, t := disk, trace;
      var tail := 0;
      assert lh[0..] == lh;
      while tail < |lh|
        invariant Installed(recovering, d, t, tx, tail) && (tail > 0 ==> recovering || |lh| < NBUF)
      {
        ok := InstallNext(recovering, tail, d, t, tx);
        if !ok { return; }
        tail := tail + 1;
      }
      ok := true;
    }

    /** One turn of the loop of install_trans. */
    method InstallTurn(recovering: bool, tail: nat, ghost data: Block) returns (ok: bool)
      requires HeaderOk() && tail < |lh| && CacheOk(if recovering then [] else lh[tail..])
      requires Get(disk, area.start + 1 + tail) == data
      modifies this`cache, this`disk, this`trace, this`pinned
      ensures ok <==> recovering || |lh| - tail < NBUF
      ensures ok ==> CacheOk(if recovering then [] else lh[tail + 1..])
      ensures ok ==> disk == old(disk)[lh[tail] := data] && trace == old(trace) + [Write(lh[tail], data)]
    {
      ghost var dirty := if recovering then [] else lh[tail..];
      ghost var less := if recovering then [] else lh[tail + 1..];
      TailSplit(lh, tail, dirty, less, !recovering);
      assert InLog(area, area.start + 1 + tail);
      ok := InstallOne(area.start + 1 + tail, lh[tail], dirty, less, !recovering);
    }

    /** A log block is read; its home block is read, written and, outside recovery, unpinned. */
    method InstallOne(from: nat, b: nat, ghost dirty: seq<nat>, ghost less: seq<nat>, unpin: bool) returns (ok: bool)
      requires CacheOk(dirty) && Distinct(dirty) && from !in dirty && b != from && (unpin || dirty == [])
      requires b !in less && forall x :: x in dirty <==> x in less || (unpin && x == b)
      modifies this`cache, this`disk, this`trace, this`pinned
      ensures ok <==> |dirty| < NBUF
      ensures ok ==> CacheOk(less) && disk == old(disk)[b := Get(old(disk), from)]
      ensures ok ==> trace == old(trace) + [Write(b, Get(old(disk), from))]
    {
      PinCount(cache, disk, pinned, dirty);
      assert CleanAt(cache, disk, pinned, dirty, from) && CleanAt(cache, disk, pinned, dirty, b);
      assert pinned + {} == pinned && (!unpin ==> pinned + {from} == {from});
      var lbuf, dbuf;
      ok, lbuf := Bread(from, {}, dirty);
      if !ok { return; }
      ok, dbuf := Bread(b, {from}, dirty);
      WriteHome(b, lbuf, dirty, less, unpin);
    }

    method WriteHome(b: nat, data: Block, ghost dirty: seq<nat>, ghost less: seq<nat>, unpin: bool)
      requires CacheOk(dirty) && b !in less && forall x :: x in dirty <==> x in less || (unpin && x == b)
      requires b in cache
      modifies this`cache, this`disk, this`trace, this`pinned
      ensures CacheOk(less)
      ensures disk == old(disk)[b := data] && trace == old(trace) + [Write(b, data)]
    {
      WriteKeeps(cache, disk, pinned, dirty, less, b, data, unpin);
      cache := cache[b := data];
      disk := disk[b := data];
      trace := trace + [Write(b, data)];
      if unpin {
        pinned := pinned - {b};
      }
    }

    /** write_log and the first write_head: up to the commit point. */
    method LogAndCommit() returns (ok: bool)
      requires Valid()
      modifies this`cache, this`disk, this`trace
      ensures ok <==> |lh| < NBUF
      ensures !ok ==> disk == old(disk) && trace == old(trace)
      ensures ok ==> CacheOk(lh) && disk == CommittedDisk(area, old(disk), old(Current()), 0)
      ensures ok ==> trace == old(trace) + LogWrites(area, old(Current()), |lh|)
                              + [Write(area.start, SetHead(Get(old(disk), area.start), lh))]
    {
      ghost var tx, d := Current(), disk;
      ok := WriteLog();
      if !ok { return; }
      LogWritesAt(area, d, tx, |lh|, area.start);
      assert InLog(area, area.start);
      ok := WriteHead(lh);
      assert InstallWrites(tx, 0) == [];
    }

    /** The second write_head: the transaction is erased. */
    method Erase()
      requires CacheOk([])
      modifies this`cache, this`disk, this`trace, this`lh
      ensures Valid() && lh == [] && disk == old(disk)[area.start := SetHead(Get(old(disk), area.start), [])]
      ensures trace == old(trace) + [Write(area.start, SetHead(Get(old(disk), area.start), []))]
    {
      HeadOfSetHead(Get(disk, area.start), []);
      lh := [];
      var ok := WriteHead([]);
    }

    /** commit: nothing to do, or exactly the writes of `CommitWrites`.  With all NBUF buffers
        pinned it panics before the first write. */
    method Commit() returns (ok: bool)
      requires Valid()
      modifies this`cache, this`disk, this`trace, this`pinned, this`lh
      ensures ok <==> old(|lh|) < NBUF
      ensures !ok ==> disk == old(disk) && trace == old(trace)
      ensures ok ==> Valid() && lh == []
      ensures ok ==> var tx, h := old(Current()), Get(old(disk), area.start);
                     var ws := if old(lh) == [] then [] else CommitWrites(area, h, tx);
                     trace == old(trace) + ws && disk == Apply(old(disk), ws)
    {
      ok := true;
      if |lh| > 0 {
        ghost var tx, d, t := Current(), disk, trace;
        ok := LogAndCommit();
        if !ok { return; }
        CommittedLog(area, d, tx, 0);
        ok := InstallTrans(false, tx);
        CommittedInstall(area, d, tx);
        CommitTotal(area, d, tx);
        Erase();
        CommitTrace(t, area, Get(d, area.start), tx);
      }
    }

    /** recover_from_log: install the committed transaction, if any, and erase it. */
    method RecoverFromLog()
      requires lh == [] && CacheOk([]) && TxOk(area, LoggedTx(area, disk))
      modifies this`cache, this`disk, this`trace, this`pinned, this`lh
      ensures Valid() && lh == [] && disk == Recover(area, old(disk))
      ensures trace == old(trace) + RecoveryWrites(area, old(disk))
    {
      ghost var d, tx := disk, LoggedTx(area, disk);
      ReadHead();
      var ok := InstallTrans(true, tx);
      InstallKeepsLog(area, d, tx, |tx.blocks|);
      assert InLog(area, area.start);
      Erase();
      RecoverTotal(area, d);
    }

    /** read_head: copy the block numbers out of the header. */
    method ReadHead()
      requires CacheOk([])
      modifies this`cache, this`lh
      ensures CacheOk([]) && lh == Head(Get(disk, area.start))
    {
      PinCount(cache, disk, pinned, []);
      assert pinned + {} == pinned;
      var ok, h := Bread(area.start, {}, []);
      CopyHead(h);
    }

    method CopyHead(h: Block)
      modifies this`lh
      ensures lh == Head(h)
    {
      lh := [];
      if h[0] > LOGSIZE {
        return;
      }
      var i := 0;
      while i < h[0]
        invariant 0 <= i <= h[0] <= LOGSIZE && lh == h[1..1 + i]
      {
        lh := lh + [h[1 + i]];
        i := i + 1;
      }
    }
  }

  // ------------------------------------------------- commits, power cuts and mounts

  /** What can happen to a mounted log.  PowerCut: the machine stops after k of the writes of
      the commit that is due, and each of the next boots stops after that many writes. */
  datatype Act = Fetch(b: nat) | Put(b: nat, data: Block) | Finish | PowerCut(k: nat, crashes: seq<nat>)

  /** The blocks that last, and those of the operations not yet committed. */
  datatype View = View(home: Disk, blocks: seq<nat>, data: map<nat, Block>)

  function TxOf(v: View): Tx {
    Tx(v.blocks, DataOf(v.data, v.blocks))
  }

  function Seen(v: View, b: nat): Block {
    if b in v.blocks then Get(v.data, b) else Get(v.home, b)
  }

  /** The same on blocks whose transactions are atomic. */
  function ViewAfter(v: View, a: Act): View {
    match a
    case Fetch(_) => v
    case Put(b, data) => View(v.home, if b in v.blocks then v.blocks else v.blocks + [b], v.data[b := data])
    case Finish => View(Install(v.home, TxOf(v)), [], map[])
    case PowerCut(k, _) => View(if k > |v.blocks| && |v.blocks| < NBUF then Install(v.home, TxOf(v)) else v.home, [], map[])
  }

  /** What an act tells: a Fetch gives the bytes of its block. */
  datatype Reply = Read(data: Block) | Quiet

  function ReplyTo(v: View, a: Act): Reply {
    if a.Fetch? then Read(Seen(v, a.b)) else Quiet
  }

  // ------------------------------------------------- what the acts make visible

  lemma PutSeen(v: View, b: nat, d: Block, c: nat)
    ensures Seen(ViewAfter(v, Put(b, d)), c) == if c == b then d else Seen(v, c)
  {
  }

  /** A write is seen in its block, and no other block changes. */
  ghost predicate PutShows(v: View, b: nat, d: Block) {
    forall c: nat :: Seen(ViewAfter(v, Put(b, d)), c) == if c == b then d else Seen(v, c)
  }

  lemma PutSeenAll(v: View, b: nat, d: Block)
    ensures PutShows(v, b, d)
  {
    forall c: nat ensures Seen(ViewAfter(v, Put(b, d)), c) == if c == b then d else Seen(v, c) { PutSeen(v, b, d, c); }
  }

  lemma InstallSeen(v: View, c: nat)
    requires Distinct(v.blocks)
    ensures Get(Install(v.home, TxOf(v)), c) == Seen(v, c)
  {
    InstallAt(v.home, TxOf(v), |v.blocks|, c);
    assert v.blocks[..|v.blocks|] == v.blocks;
    if c in v.blocks {
      var i :| 0 <= i < |v.blocks| && v.blocks[i] == c;
      assert TxOf(v).data[i] == Get(v.data, c);
    }
  }

  /** A commit changes no block that anybody sees. */
  lemma FinishSeen(v: View, c: nat)
    requires Distinct(v.blocks)
    ensures Seen(ViewAfter(v, Finish), c) == Seen(v, c) && ViewAfter(v, Finish).blocks == []
  {
    InstallSeen(v, c);
  }

  /** A power cut leaves all that was written since the last commit or none of it: all exactly
      if the cut comes behind the write of the header, the one after those of the blocks. */
  lemma CutSeen(v: View, k: nat, crashes: seq<nat>, c: nat)
    requires Distinct(v.blocks)
    ensures var t := ViewAfter(v, PowerCut(k, crashes));
            t.blocks == [] && Seen(t, c) == if k > |v.blocks| && |v.blocks| < 30 then Seen(v, c) else Get(v.home, c)
  {
    InstallSeen(v, c);
  }

  /** The act leaves what is seen of block b. */
  predicate Leaves(a: Act, b: nat) {
    !a.PowerCut? && (a.Put? ==> a.b != b)
  }

  lemma LeavesSeen(v: View, a: Act, b: nat)
    requires Distinct(v.blocks) && Leaves(a, b)
    ensures Seen(ViewAfter(v, a), b) == Seen(v, b)
    ensures b !in v.blocks ==> b !in ViewAfter(v, a).blocks
  {
    if a.Finish? { FinishSeen(v, b); }
  }

  lemma DistinctAfter(v: View, a: Act)
    requires Distinct(v.blocks)
    ensures Distinct(ViewAfter(v, a).blocks)
  {
  }

  predicate ActOk(area: Area, a: Act) {
    (a.Fetch? || a.Put?) ==> !InLog(area, a.b)
  }

  /** On disk d recovery, however often it is interrupted, ends with the home blocks of goal. */
  ghost predicate Promises(area: Area, h: Disk, tx: Tx, d: Disk, goal: Disk) {
    TxOk(area, tx) && (Idle(area, goal, d) || (Committed(area, h, tx, d) && goal == Install(h, tx)))
  }

  lemma PromiseLogged(area: Area, h: Disk, tx: Tx, d: Disk, goal: Disk)
    requires Promises(area, h, tx, d, goal)
    ensures TxOk(area, LoggedTx(area, d))
  {
  }

  lemma PromiseKept(area: Area, h: Disk, tx: Tx, d: Disk, goal: Disk, k: nat)
    requires Promises(area, h, tx, d, goal) && k <= |RecoveryWrites(area, d)|
    ensures Promises(area, h, tx, Apply(d, RecoveryWrites(area, d)[..k]), goal)
  {
    if Idle(area, goal, d) {
      RecoverIdle(area, goal, d, k);
    } else {
      RecoverCommitted(area, h, tx, d, k);
    }
  }

  lemma PromiseMet(area: Area, h: Disk, tx: Tx, d: Disk, goal: Disk)
    requires Promises(area, h, tx, d, goal)
    ensures Idle(area, goal, Recover(area, d))
  {
    var ws := RecoveryWrites(area, d);
    RecoveryPrefix(area, d, 0);
    assert ws[..|ws|] == ws;
    if Idle(area, goal, d) {
      RecoverIdle(area, goal, d, |ws|);
    } else {
      RecoverCommitted(area, h, tx, d, |ws|);
    }
  }

  /** Where a commit can stop: recovery then finds the old blocks or the new ones. */
  lemma CommitPromises(area: Area, d: Disk, tx: Tx, k: nat)
    requires TxOk(area, tx) && Idle(area, d, d) && k <= |CommitWrites(area, Get(d, area.start), tx)|
    ensures Promises(area, d, tx, Apply(d, CommitWrites(area, Get(d, area.start), tx)[..k]),
                     if k > |tx.blocks| then Install(d, tx) else d)
  {
    var m := |tx.blocks|;
    var ws := CommitWrites(area, Get(d, area.start), tx);
    CommitPrefix(area, Get(d, area.start), tx, 0);
    if k <= m {
      BeforeCommitPoint(area, d, tx, k);
    } else if k < |ws| {
      CommitReaches(area, d, tx, k - m - 1);
      AfterCommitPoint(area, d, tx, k - m - 1);
    } else {
      assert ws[..k] == ws;
      CommitFinishes(area, d, tx);
    }
  }

  /** Boots that stop after the given numbers of writes, then one that completes. */
  method Reboot(area: Area, disk: Disk, crashes: seq<nat>, ghost h: Disk, ghost tx: Tx, ghost goal: Disk) returns (log: Log)
    requires Promises(area, h, tx, disk, goal)
    ensures fresh(log) && log.area == area && log.Valid() && log.lh == [] && SameHome(area, goal, log.disk)
  {
    var d, i := disk, 0;
    while i < |crashes|
      invariant i <= |crashes| && Promises(area, h, tx, d, goal)
    {
      PromiseLogged(area, h, tx, d, goal);
      var boot := new Log(area, d);
      var k := if crashes[i] <= |boot.trace| then crashes[i] else |boot.trace|;
      PromiseKept(area, h, tx, d, goal, k);
      d := Apply(d, boot.trace[..k]);
      i := i + 1;
    }
    PromiseLogged(area, h, tx, d, goal);
    PromiseMet(area, h, tx, d, goal);
    log := new Log(area, d);
  }

  /** The mounted log shows the view v. */
  ghost predicate Shows(log: Log, v: View)
    reads log
  {
    && log.Valid() && SameHome(log.area, v.home, log.disk) && log.lh == v.blocks
    && Kept(log.lh, v.data, log.cache)
  }

  /** Where a run stops: bget finds every buffer pinned, or log_write refuses. */
  predicate Stops(area: Area, v: View, a: Act) {
    match a
    case Fetch(b) => b !in v.blocks && |v.blocks| >= NBUF
    case Put(_, _) => |v.blocks| >= LOGSIZE || |v.blocks| + 1 >= area.size
    case Finish => |v.blocks| >= NBUF
    case PowerCut(_, _) => false
  }

  /** The disk of a machine that stopped: the next mount finds the committed operations. */
  ghost predicate Lasts(log: Log, v: View)
    reads log
  {
    SameHome(log.area, v.home, log.disk) && Head(Get(log.disk, log.area.start)) == []
  }

  /** What a bread can find: the pinned blocks are those of the view. */
  lemma Pins(log: Log, v: View, b: nat)
    requires Shows(log, v)
    ensures |log.pinned + {}| == |v.blocks| && (b in log.pinned <==> b in v.blocks)
  {
    PinCount(log.cache, log.disk, log.pinned, log.lh);
    assert CleanAt(log.cache, log.disk, log.pinned, log.lh, b);
    assert log.pinned + {} == log.pinned;
  }

  /** bread and brelse by an operation: its own writes, else what is committed. */
  method FetchAct(log: Log, b: nat, ghost v: View) returns (ok: bool, data: Block)
    requires Shows(log, v) && !InLog(log.area, b)
    modifies log
    ensures ok <==> !Stops(log.area, v, Fetch(b))
    ensures ok <==> b in v.blocks || |v.blocks| < 30
    ensures ok ==> Shows(log, v) && data == Seen(v, b)
    ensures !ok ==> Lasts(log, v)
  {
    Pins(log, v, b);
    ok, data := log.Bread(b, {}, log.lh);
    assert SameHomeAt(log.area, v.home, log.disk, b);
  }

  /** bread, a change of the buffer, log_write and brelse; false is a panic. */
  method PutAct(log: Log, b: nat, data: Block, ghost v: View) returns (ok: bool)
    requires Shows(log, v) && !InLog(log.area, b)
    modifies log
    ensures ok <==> !Stops(log.area, v, Put(b, data))
    ensures ok <==> |v.blocks| < 30 && |v.blocks| + 1 < log.area.size
    ensures ok ==> Shows(log, ViewAfter(v, Put(b, data)))
    ensures PutShows(v, b, data)
    ensures !ok ==> Lasts(log, v)
  {
    Pins(log, v, b);
    var was;
    ok, was := log.Bread(b, {}, log.lh);
    if ok { ok := log.LogWrite(b, data); }
    PutSeenAll(v, b, data);
  }

  lemma SameTx(log: Log, v: View)
    requires Shows(log, v)
    ensures log.Current() == TxOf(v) && TxOk(log.area, TxOf(v)) && Idle(log.area, log.disk, log.disk)
  {
    assert DataOf(log.cache, log.lh) == DataOf(v.data, v.blocks);
    SameHomeRefl(log.area, log.disk);
  }

  /** The end of the last operation: commit. */
  method FinishAct(log: Log, ghost v: View) returns (ok: bool)
    requires Shows(log, v)
    modifies log
    ensures ok <==> !Stops(log.area, v, Finish)
    ensures ok <==> |v.blocks| < 30
    ensures ok ==> Shows(log, ViewAfter(v, Finish))
    ensures forall c: nat :: Seen(ViewAfter(v, Finish), c) == Seen(v, c)
    ensures !ok ==> Lasts(log, v)
  {
    SameTx(log, v);
    forall c: nat ensures Seen(ViewAfter(v, Finish), c) == Seen(v, c) { FinishSeen(v, c); }
    ghost var d, tx, area := log.disk, TxOf(v), log.area;
    SameHomeInstall(area, v.home, d, tx);
    CommitFinishes(area, d, tx);
    ok := log.Commit();
    if !ok { return; }
    if v.blocks == [] {
      assert Install(v.home, tx) == v.home;
    } else {
      SameHomeTrans(area, Install(v.home, tx), Install(d, tx), log.disk);
    }
  }

  /** What the writes of a cut commit promise. */
  lemma CutPromises(area: Area, d: Disk, tx: Tx, ws: seq<Write>, k: nat)
    requires TxOk(area, tx) && Idle(area, d, d)
    requires |tx.blocks| >= NBUF || tx.blocks == [] ==> ws == []
    requires 0 < |tx.blocks| < NBUF ==> ws == CommitWrites(area, Get(d, area.start), tx)
    ensures var n := if k <= |ws| then k else |ws|;
            Promises(area, d, tx, Apply(d, ws[..n]), if k > |tx.blocks| && |tx.blocks| < NBUF then Install(d, tx) else d)
  {
    var n := if k <= |ws| then k else |ws|;
    if ws == [] {
      assert tx.blocks == [] ==> Install(d, tx) == d;
    } else {
      CommitPrefix(area, Get(d, area.start), tx, 0);
      CommitPromises(area, d, tx, n);
    }
  }

  /** The writes of the commit that is due. */
  method CutCommit(log: Log, ghost v: View) returns (ws: seq<Write>)
    requires Shows(log, v)
    modifies log
    ensures TxOf(v).blocks == v.blocks && |TxOf(v).data| == |v.blocks| <= LOGSIZE
    ensures |v.blocks| >= NBUF || v.blocks == [] ==> ws == []
    ensures 0 < |v.blocks| < NBUF ==> ws == CommitWrites(log.area, Get(old(log.disk), log.area.start), TxOf(v))
  {
    SameTx(log, v);
    var from := |log.trace|;
    ghost var t, h := log.trace, Get(log.disk, log.area.start);
    var ok := log.Commit();
    ws := log.trace[from..];
    if 0 < |v.blocks| < NBUF { After(t, CommitWrites(log.area, h, TxOf(v))); }
  }

  /** The machine stops during the commit, or the commit panics; it boots again, perhaps
      several times. */
  method CutAct(log: Log, k: nat, crashes: seq<nat>, ghost v: View) returns (boot: Log)
    requires Shows(log, v)
    modifies log
    ensures fresh(boot) && boot.area == log.area && Shows(boot, ViewAfter(v, PowerCut(k, crashes)))
  {
    SameTx(log, v);
    ghost var tx := TxOf(v);
    var area, d := log.area, log.disk;
    var ws := CutCommit(log, v);
    var n := if k <= |ws| then k else |ws|;
    CutPromises(area, d, tx, ws, k);
    ghost var goal := if k > |tx.blocks| && |tx.blocks| < NBUF then Install(d, tx) else d;
    boot := Reboot(area, Apply(d, ws[..n]), crashes, d, tx, goal);
    SameHomeInstall(area, v.home, d, tx);
    SameHomeTrans(area, ViewAfter(v, PowerCut(k, crashes)).home, goal, boot.disk);
  }

  /** With a log area that is no larger than the cache a bread always finds a buffer. */
  lemma RoomyCache(log: Log, v: View, a: Act)
    requires Shows(log, v) && log.area.size <= NBUF && Stops(log.area, v, a)
    ensures a.Put?
  {
  }

  ghost predicate ActAt(area: Area, acts: seq<Act>, rs: seq<Reply>, trail: seq<View>, i: nat) {
    i < |acts| && i < |rs| && i + 1 < |trail| ==>
      !Stops(area, trail[i], acts[i]) && rs[i] == ReplyTo(trail[i], acts[i]) && trail[i + 1] == ViewAfter(trail[i], acts[i])
  }

  /** A run from trail[0] on blocks whose transactions are atomic. */
  ghost predicate History(area: Area, acts: seq<Act>, rs: seq<Reply>, trail: seq<View>) {
    |rs| <= |acts| && |trail| == |rs| + 1 && forall i: nat :: ActAt(area, acts, rs, trail, i)
  }

  lemma HistoryOn(area: Area, acts: seq<Act>, rs: seq<Reply>, trail: seq<View>, a: Act, v: View)
    requires History(area, acts, rs, trail) && |rs| < |acts| && a == acts[|rs|] && v == trail[|rs|] && !Stops(area, v, a)
    ensures History(area, acts, rs + [ReplyTo(v, a)], trail + [ViewAfter(v, a)])
  {
    var more, long := rs + [ReplyTo(v, a)], trail + [ViewAfter(v, a)];
    forall i: nat ensures ActAt(area, acts, more, long, i) { assert ActAt(area, acts, rs, trail, i); }
  }

  lemma {:induction false} DistinctAt(area: Area, acts: seq<Act>, rs: seq<Reply>, trail: seq<View>, i: nat)
    requires History(area, acts, rs, trail) && i <= |rs| && Distinct(trail[0].blocks)
    ensures Distinct(trail[i].blocks)
  {
    if i > 0 {
      DistinctAt(area, acts, rs, trail, i - 1);
      assert ActAt(area, acts, rs, trail, i - 1);
      DistinctAfter(trail[i - 1], acts[i - 1]);
    }
  }

  lemma {:induction false} StaysSeen(area: Area, acts: seq<Act>, rs: seq<Reply>, trail: seq<View>, i: nat, j: nat, b: nat)
    requires History(area, acts, rs, trail) && i <= j <= |rs| && Distinct(trail[0].blocks)
    requires forall m :: i <= m < j ==> Leaves(acts[m], b)
    ensures Seen(trail[j], b) == Seen(trail[i], b)
    decreases j
  {
    if i < j {
      StaysSeen(area, acts, rs, trail, i, j - 1, b);
      DistinctAt(area, acts, rs, trail, j - 1);
      assert ActAt(area, acts, rs, trail, j - 1);
      LeavesSeen(trail[j - 1], acts[j - 1], b);
    }
  }

  /** A read gives the last write of its block, whatever commits and other writes come between. */
  lemma LastWrite(area: Area, acts: seq<Act>, rs: seq<Reply>, trail: seq<View>, i: nat, j: nat, b: nat, d: Block)
    requires History(area, acts, rs, trail) && i < j < |rs| && Distinct(trail[0].blocks)
    requires acts[i] == Put(b, d) && acts[j] == Fetch(b)
    requires forall m :: i < m < j ==> Leaves(acts[m], b)
    ensures rs[j] == Read(d)
  {
    assert ActAt(area, acts, rs, trail, i) && ActAt(area, acts, rs, trail, j);
    PutSeen(trail[i], b, d, b);
    StaysSeen(area, acts, rs, trail, i + 1, j, b);
  }

  lemma {:induction false} StaysHome(area: Area, acts: seq<Act>, rs: seq<Reply>, trail: seq<View>, i: nat, j: nat, b: nat)
    requires History(area, acts, rs, trail) && i <= j <= |rs| && Distinct(trail[0].blocks) && b !in trail[i].blocks
    requires forall m :: i <= m < j ==> acts[m].Put? ==> acts[m].b != b
    ensures b !in trail[j].blocks && Seen(trail[j], b) == Seen(trail[i], b)
    decreases j
  {
    if i < j {
      StaysHome(area, acts, rs, trail, i, j - 1, b);
      DistinctAt(area, acts, rs, trail, j - 1);
      assert ActAt(area, acts, rs, trail, j - 1);
      var v, a := trail[j - 1], acts[j - 1];
      if a.PowerCut? { CutSeen(v, a.k, a.crashes, b); } else { LeavesSeen(v, a, b); }
    }
  }

  /** What was written and then committed survives every power cut until the block is written again. */
  lemma Durable(area: Area, acts: seq<Act>, rs: seq<Reply>, trail: seq<View>, i: nat, c: nat, j: nat, b: nat, d: Block)
    requires History(area, acts, rs, trail) && i < c < j < |rs| && Distinct(trail[0].blocks)
    requires acts[i] == Put(b, d) && acts[c] == Finish && acts[j] == Fetch(b)
    requires forall m :: i < m < c ==> Leaves(acts[m], b)
    requires forall m :: c < m < j ==> acts[m].Put? ==> acts[m].b != b
    ensures rs[j] == Read(d)
  {
    assert ActAt(area, acts, rs, trail, i) && ActAt(area, acts, rs, trail, c) && ActAt(area, acts, rs, trail, j);
    PutSeen(trail[i], b, d, b);
    StaysSeen(area, acts, rs, trail, i + 1, c, b);
    DistinctAt(area, acts, rs, trail, c);
    FinishSeen(trail[c], b);
    StaysHome(area, acts, rs, trail, c + 1, j, b);
  }

  /** One act; a power cut ends with another log. */
  method Step(log0: Log, a: Act, ghost v: View) returns (ok: bool, log: Log, r: Reply)
    requires Shows(log0, v) && ActOk(log0.area, a)
    modifies log0
    ensures log.area == log0.area && (log == log0 || fresh(log))
    ensures ok <==> !Stops(log.area, v, a)
    ensures if ok then Shows(log, ViewAfter(v, a)) && r == ReplyTo(v, a) else Lasts(log, v)
  {
    ok, log, r := true, log0, Quiet;
    match a {
      case Fetch(b) =>
        var data;
        ok, data := FetchAct(log, b, v);
        r := Read(data);
      case Put(b, data) => ok := PutAct(log, b, data, v);
      case Finish => ok := FinishAct(log, v);
      case PowerCut(k, crashes) => log := CutAct(log, k, crashes, v);
    }
  }

  /** Over every run of reads, writes, commits and power cuts each mount finds the blocks of
      the committed operations and each read sees them with the operation's own writes.
      The run ends early exactly at a panic, and then only committed operations last. */
  method Run(log0: Log, acts: seq<Act>, ghost v: View) returns (log: Log, rs: seq<Reply>, ghost trail: seq<View>)
    requires Shows(log0, v) && forall i :: 0 <= i < |acts| ==> ActOk(log0.area, acts[i])
    modifies log0
    ensures log.area == log0.area && History(log.area, acts, rs, trail) && trail[0] == v && Distinct(v.blocks)
    ensures |rs| == |acts| ==> Shows(log, trail[|rs|])
    ensures |rs| < |acts| ==> Stops(log.area, trail[|rs|], acts[|rs|]) && Lasts(log, trail[|rs|])
    ensures |rs| < |acts| && log.area.size <= NBUF ==> acts[|rs|].Put?
  {
    log, rs, trail := log0, [], [v];
    while |rs| < |acts|
      invariant log.area == log0.area && (log == log0 || fresh(log))
      invariant History(log.area, acts, rs, trail) && trail[0] == v && Shows(log, trail[|rs|])
    {
      ghost var now, a := trail[|rs|], acts[|rs|];
      if Stops(log.area, now, a) && log.area.size <= NBUF { RoomyCache(log, now, a); }
      var ok, next, r := Step(log, acts[|rs|], now);
      log := next;
      if !ok { return; }
      HistoryOn(log.area, acts, rs, trail, a, now);
      rs, trail := rs + [r], trail + [ViewAfter(now, a)];
    }
  }

  /** The first mount of a blank disk. */
  method Blank(area: Area) returns (log: Log)
    ensures fresh(log) && log.area == area && Shows(log, View(map[], [], map[]))
  {
    ghost var none: Disk := map[];
    SameHomeRefl(area, none);
    assert Promises(area, none, Tx([], []), none, none);
    log := Reboot(area, map[], [], none, Tx([], []), none);
  }

  /** A transaction of LOGSIZE blocks panics whatever the size of the log area: in log_write,
      or, with a larger area, in the commit, for want of a buffer. */
  method FullLog(area: Area, first: nat) returns (log: Log, n: nat, ok: bool)
    requires forall b: nat :: first <= b < first + LOGSIZE ==> !InLog(area, b)
    ensures n <= LOGSIZE && log.area == area && !ok && (n == LOGSIZE <==> area.size > LOGSIZE)
    ensures Lasts(log, View(map[], [], map[]))
  {
    log := Blank(area);
    ghost var v := View(map[], [], map[]);
    n := 0;
    while n < LOGSIZE
      invariant n <= LOGSIZE && fresh(log) && log.area == area && Shows(log, v)
      invariant v.home == map[] && |v.blocks| == n < area.size && forall x :: x in v.blocks ==> x < first + n
    {
      ok := PutAct(log, first + n, Zeros(), v);
      if !ok { return; }
      v := ViewAfter(v, Put(first + n, Zeros()));
      n := n + 1;
    }
    ok := FinishAct(log, v);
  }
}
