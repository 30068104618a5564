/**
 kernel/bio.c: the buffer cache.  NBUF buffers hang on a circular doubly linked list in
 order of use, most recent first; the list head is entry n of the link arrays.  Each
 method is what runs under bcache.lock or, for bread, under the buffer's own lock.
 */
module BufferCache {

  datatype Key = Key(dev: nat, blk: nat)

  datatype Buf = Buf(key: Key, valid: bool, refcnt: nat, data: seq<nat>)

  /** What the static array holds before anything is read. */
  const BLANK := Buf(Key(0, 0), false, 0, [])

  type Disk = map<Key, seq<nat>>

  function OnDisk(d: Disk, k: Key): seq<nat> {
    if k in d then d[k] else []
  }

  // ------------------------------------------------- the list

  ghost predicate NoDup(ring: seq<nat>) {
    forall i, j :: 0 <= i < j < |ring| ==> ring[i] != ring[j]
  }

  function After(ring: seq<nat>, i: nat): nat
    requires i < |ring|
  {
    if i + 1 < |ring| then i + 1 else 0
  }

  ghost predicate LinkAt(next: seq<nat>, prev: seq<nat>, ring: seq<nat>, i: nat) {
    i < |ring| && ring[i] < |next| && ring[After(ring, i)] < |prev| ==>
      next[ring[i]] == ring[After(ring, i)] && prev[ring[After(ring, i)]] == ring[i]
  }

  /** The links go round the ring both ways; the ring starts at the head, n. */
  ghost predicate Links(next: seq<nat>, prev: seq<nat>, ring: seq<nat>, n: nat) {
    && |next| == n + 1 && |prev| == n + 1 && ring != [] && ring[0] == n && NoDup(ring)
    && (forall i :: 0 <= i < |ring| ==> ring[i] <= n)
    && (forall i: nat :: LinkAt(next, prev, ring, i))
  }

  /** The ring without the entry at p. */
  function Without(ring: seq<nat>, p: nat): (r: seq<nat>)
    requires 0 < p < |ring|
    ensures |r| == |ring| - 1
  {
    ring[..p] + ring[p + 1..]
  }

  /** The ring with b right behind the head. */
  function WithFront(ring: seq<nat>, b: nat): (r: seq<nat>)
    requires ring != []
    ensures |r| == |ring| + 1
  {
    [ring[0], b] + ring[1..]
  }

  lemma FrontHas(ring: seq<nat>, b: nat, x: nat)
    requires ring != []
    ensures x in WithFront(ring, b) <==> x == b || x in ring
  {
    assert ring == [ring[0]] + ring[1..];
  }

  /** The ring after the entry at p has moved to the front. */
  function Moved(ring: seq<nat>, p: nat): seq<nat>
    requires 0 < p < |ring|
  {
    WithFront(Without(ring, p), ring[p])
  }

  /** Where the entry now at place i came from. */
  lemma MovedFrom(ring: seq<nat>, p: nat, i: nat)
    requires 0 < p < |ring| && i < |ring|
    ensures Moved(ring, p)[i] == ring[if i == 0 then 0 else if i == 1 then p else if i <= p then i - 1 else i]
  {
  }

  /** Taking an entry out of the list. */
  lemma UnlinkKeeps(next: seq<nat>, prev: seq<nat>, ring: seq<nat>, n: nat, p: nat)
    requires Links(next, prev, ring, n) && 0 < p < |ring|
    ensures ring[p] <= n && next[ring[p]] <= n && prev[ring[p]] <= n
    ensures var b := ring[p]; Links(next[prev[b] := next[b]], prev[next[b] := prev[b]], Without(ring, p), n)
  {
    var b, r := ring[p], Without(ring, p);
    assert LinkAt(next, prev, ring, p) && LinkAt(next, prev, ring, p - 1);
    var next', prev' := next[prev[b] := next[b]], prev[next[b] := prev[b]];
    forall i: nat ensures LinkAt(next', prev', r, i) {
      if i < |r| {
        var j := if i < p then i else i + 1;
        assert LinkAt(next, prev, ring, j) && r[i] == ring[j];
      }
    }
  }

  /** Putting an entry that is not in the list right behind the head. */
  lemma InsertKeeps(next: seq<nat>, prev: seq<nat>, ring: seq<nat>, n: nat, b: nat)
    requires Links(next, prev, ring, n) && b < n && b !in ring
    ensures next[n] <= n
    ensures var first := next[n];
            Links(next[b := first][n := b], prev[b := n][first := b], WithFront(ring, b), n)
  {
    assert LinkAt(next, prev, ring, 0);
    var first, r := next[n], WithFront(ring, b);
    var next', prev' := next[b := first][n := b], prev[b := n][first := b];
    forall i: nat ensures LinkAt(next', prev', r, i) {
      if 2 <= i < |r| {
        assert LinkAt(next, prev, ring, i - 1) && r[i] == ring[i - 1];
      }
    }
  }

  // ------------------------------------------------- the buffers

  /** Of two buffers with the same key the later one in the list is a blank never used. */
  ghost predicate OnlyFirst(bufs: seq<Buf>, ring: seq<nat>, i: nat, j: nat) {
    0 < i < j < |ring| && ring[i] < |bufs| && ring[j] < |bufs| && bufs[ring[i]].key == bufs[ring[j]].key ==>
      bufs[ring[j]].key == Key(0, 0) && bufs[ring[j]].refcnt == 0 && !bufs[ring[j]].valid
  }

  ghost predicate Ordered(bufs: seq<Buf>, ring: seq<nat>) {
    forall i: nat, j: nat :: OnlyFirst(bufs, ring, i, j)
  }

  ghost predicate Caches(bufs: seq<Buf>, b: nat, k: Key) {
    b < |bufs| && bufs[b].valid && bufs[b].key == k
  }

  /** What a reader of block k sees: the cached copy, else the disk. */
  ghost function Current(bufs: seq<Buf>, disk: Disk, k: Key): seq<nat> {
    if exists b: nat :: Caches(bufs, b, k) then (var b: nat :| Caches(bufs, b, k); bufs[b].data) else OnDisk(disk, k)
  }

  ghost predicate InList(ring: seq<nat>, b: nat) {
    ring != [] && b in ring[1..]
  }

  /** There is at most one valid copy of a block. */
  lemma OneCopy(bufs: seq<Buf>, ring: seq<nat>, a: nat, b: nat, k: Key)
    requires Ordered(bufs, ring) && InList(ring, a) && InList(ring, b) && Caches(bufs, a, k) && Caches(bufs, b, k)
    ensures a == b
  {
    var i: nat :| i < |ring[1..]| && ring[1..][i] == a;
    var j: nat :| j < |ring[1..]| && ring[1..][j] == b;
    var x, y := i + 1, j + 1;
    assert OnlyFirst(bufs, ring, x, y) && OnlyFirst(bufs, ring, y, x);
  }

  ghost predicate Cached(bufs: seq<Buf>, k: Key) {
    exists b :: 0 <= b < |bufs| && bufs[b].key == k
  }

  ghost predicate AllBusy(bufs: seq<Buf>) {
    forall b :: 0 <= b < |bufs| ==> bufs[b].refcnt > 0
  }

  /** Buffer b is at place p of the ring and every buffer behind it is in use. */
  ghost predicate LastFree(bufs: seq<Buf>, ring: seq<nat>, p: nat, b: nat) {
    && 0 < p < |ring| && ring[p] == b && b < |bufs| && bufs[b].refcnt == 0
    && forall j :: p < j < |ring| && ring[j] < |bufs| ==> bufs[ring[j]].refcnt > 0
  }

  lemma Place(ring: seq<nat>, c: nat) returns (p: nat)
    requires InList(ring, c)
    ensures 0 < p < |ring| && ring[p] == c
  {
    var i: nat :| i < |ring[1..]| && ring[1..][i] == c;
    p := i + 1;
  }

  /** Taking a reference to the first buffer with its key. */
  lemma HitKeeps(bufs: seq<Buf>, ring: seq<nat>, p: nat)
    requires Ordered(bufs, ring) && NoDup(ring) && 0 < p < |ring| && ring[p] < |bufs|
    requires forall j :: 0 < j < p && ring[j] < |bufs| ==> bufs[ring[j]].key != bufs[ring[p]].key
    ensures var b := ring[p]; Ordered(bufs[b := bufs[b].(refcnt := bufs[b].refcnt + 1)], ring)
  {
    var b := ring[p];
    var t := bufs[b := bufs[b].(refcnt := bufs[b].refcnt + 1)];
    forall i: nat, j: nat ensures OnlyFirst(t, ring, i, j) { assert OnlyFirst(bufs, ring, i, j); }
  }

  /** Giving the last unreferenced buffer a key that no buffer has. */
  lemma RecycleKeeps(bufs: seq<Buf>, ring: seq<nat>, p: nat, k: Key)
    requires Ordered(bufs, ring) && NoDup(ring) && 0 < p < |ring| && ring[p] < |bufs|
    requires forall b :: 0 <= b < |bufs| ==> bufs[b].key != k
    ensures var b := ring[p]; Ordered(bufs[b := bufs[b].(key := k, valid := false, refcnt := 1)], ring)
  {
    var b := ring[p];
    var t := bufs[b := bufs[b].(key := k, valid := false, refcnt := 1)];
    forall i: nat, j: nat ensures OnlyFirst(t, ring, i, j) { assert OnlyFirst(bufs, ring, i, j); }
  }

  /** Dropping the last reference moves the buffer to the front. */
  lemma MoveKeeps(bufs: seq<Buf>, ring: seq<nat>, p: nat)
    requires Ordered(bufs, ring) && NoDup(ring) && 0 < p < |ring| && ring[p] < |bufs| && bufs[ring[p]].refcnt > 0
    ensures var b := ring[p]; Ordered(bufs[b := bufs[b].(refcnt := 0)], Moved(ring, p))
  {
    var b, r := ring[p], Moved(ring, p);
    var t := bufs[b := bufs[b].(refcnt := 0)];
    forall i: nat, j: nat ensures OnlyFirst(t, r, i, j) {
      if 0 < i < j < |r| {
        MovedFrom(ring, p, i);
        MovedFrom(ring, p, j);
        var x, y := if i == 1 then p else if i <= p then i - 1 else i, if j <= p then j - 1 else j;
        assert OnlyFirst(bufs, ring, x, y) && OnlyFirst(bufs, ring, y, x);
      }
    }
  }

  lemma MovedListed(n: nat, ring: seq<nat>, p: nat, x: nat)
    requires 0 < p < |ring| && ListedAt(n, ring, x)
    ensures ListedAt(n, Moved(ring, p), x)
  {
    if x < n {
      var q := Place(ring, x);
      var i := if q == p then 1 else if q < p then q + 1 else q;
      MovedFrom(ring, p, i);
      assert Moved(ring, p)[1..][i - 1] == x;
    }
  }

  /** The buffer b of the old ring is now right behind the head. */
  ghost predicate ToFront(ring: seq<nat>, ring': seq<nat>, p: nat, b: nat) {
    0 < p < |ring| && ring[p] == b && ring' == Moved(ring, p)
  }

  // ------------------------------------------------- the ring is in the order of the last releases

  predicate Unique(ring: seq<nat>) {
    forall i, j :: 0 <= i < j < |ring| ==> ring[i] != ring[j]
  }

  ghost predicate FreedAt(rings: seq<seq<nat>>, freed: seq<nat>, t: nat) {
    t < |freed| && t + 1 < |rings| ==> IsFront(rings[t], rings[t + 1], freed[t])
  }

  ghost predicate IsFront(ring: seq<nat>, ring': seq<nat>, b: nat) {
    exists p: nat :: ToFront(ring, ring', p, b)
  }

  /** The rings between the last releases of the buffers of freed. */
  ghost predicate Releases(rings: seq<seq<nat>>, freed: seq<nat>) {
    |rings| == |freed| + 1 && Unique(rings[0]) && forall t: nat :: FreedAt(rings, freed, t)
  }

  /** When b was released for the last time among the first t releases, counted from 1. */
  function LastTime(freed: seq<nat>, t: nat, b: nat): (r: nat)
    requires t <= |freed|
    ensures r <= t
  {
    if t == 0 then 0 else if freed[t - 1] == b then t else LastTime(freed, t - 1, b)
  }

  lemma MovedUnique(ring: seq<nat>, p: nat)
    requires Unique(ring) && 0 < p < |ring|
    ensures Unique(Moved(ring, p)) && |Moved(ring, p)| == |ring|
  {
    forall i, j | 0 <= i < j < |ring| ensures Moved(ring, p)[i] != Moved(ring, p)[j] {
      MovedFrom(ring, p, i);
      MovedFrom(ring, p, j);
    }
  }

  lemma {:induction false} ByRelease(rings: seq<seq<nat>>, freed: seq<nat>, t: nat)
    requires Releases(rings, freed) && t <= |freed|
    ensures Unique(rings[t])
    ensures forall i, j :: 0 < i < j < |rings[t]| ==> LastTime(freed, t, rings[t][i]) >= LastTime(freed, t, rings[t][j])
  {
    if t > 0 {
      ByRelease(rings, freed, t - 1);
      assert FreedAt(rings, freed, t - 1);
      var ring := rings[t - 1];
      var next, b := rings[t], freed[t - 1];
      var p: nat :| ToFront(ring, next, p, b);
      MovedUnique(ring, p);
      forall i, j | 0 < i < j < |ring| ensures LastTime(freed, t, rings[t][i]) >= LastTime(freed, t, rings[t][j]) {
        MovedFrom(ring, p, i);
        MovedFrom(ring, p, j);
      }
    }
  }

  /** Of the buffers nobody holds, bget takes the one whose last release is the oldest. */
  lemma LeastRecentlyUsed(bufs: seq<Buf>, rings: seq<seq<nat>>, freed: seq<nat>, p: nat, b: nat, q: nat)
    requires Releases(rings, freed) && LastFree(bufs, rings[|freed|], p, b)
    requires 0 < q < |rings[|freed|]| && rings[|freed|][q] < |bufs| && bufs[rings[|freed|][q]].refcnt == 0
    ensures LastTime(freed, |freed|, b) <= LastTime(freed, |freed|, rings[|freed|][q])
  {
    ByRelease(rings, freed, |freed|);
  }

  /** Lowering a count, filling or changing the data of a referenced buffer. */
  lemma TouchKeeps(bufs: seq<Buf>, ring: seq<nat>, b: nat, x: Buf)
    requires Ordered(bufs, ring) && b < |bufs| && bufs[b].refcnt > 0 && x.key == bufs[b].key
    ensures Ordered(bufs[b := x], ring)
  {
    var t := bufs[b := x];
    forall i: nat, j: nat ensures OnlyFirst(t, ring, i, j) { assert OnlyFirst(bufs, ring, i, j); }
  }

  // ------------------------------------------------- what readers see

  /** The list holds every buffer. */
  ghost predicate Listed(bufs: seq<Buf>, ring: seq<nat>) {
    forall b: nat :: ListedAt(|bufs|, ring, b)
  }

  ghost predicate ListedAt(n: nat, ring: seq<nat>, b: nat) {
    b < n ==> InList(ring, b)
  }

  lemma CurrentIs(bufs: seq<Buf>, disk: Disk, ring: seq<nat>, b: nat, k: Key)
    requires Ordered(bufs, ring) && Listed(bufs, ring) && Caches(bufs, b, k)
    ensures Current(bufs, disk, k) == bufs[b].data
  {
    var c: nat :| Caches(bufs, c, k) && Current(bufs, disk, k) == bufs[c].data;
    assert Caches(bufs, c, k);
    assert ListedAt(|bufs|, ring, b) && ListedAt(|bufs|, ring, c);
    OneCopy(bufs, ring, b, c, k);
  }

  /** A change of one buffer that caches another block is not seen. */
  lemma SameCurrent(bufs: seq<Buf>, disk: Disk, ring: seq<nat>, b: nat, x: Buf, ring': seq<nat>, k: Key)
    requires Ordered(bufs, ring) && Listed(bufs, ring) && b < |bufs|
    requires Ordered(bufs[b := x], ring') && Listed(bufs[b := x], ring')
    requires (Caches(bufs, b, k) <==> x.valid && x.key == k) && (Caches(bufs, b, k) ==> x.data == bufs[b].data)
    ensures Current(bufs[b := x], disk, k) == Current(bufs, disk, k)
  {
    var t := bufs[b := x];
    if c: nat :| Caches(bufs, c, k) {
      CurrentIs(bufs, disk, ring, c, k);
      assert Caches(t, c, k);
      CurrentIs(t, disk, ring', c, k);
    } else {
      assert forall c: nat :: !Caches(t, c, k) by {
        forall c: nat ensures !Caches(t, c, k) { assert !Caches(bufs, c, k); }
      }
    }
  }

  /** Reading a block into a buffer that nobody held changes what no reader sees. */
  lemma Evicted(bufs: seq<Buf>, disk: Disk, ring: seq<nat>, b: nat, x: Buf, k: Key)
    requires Ordered(bufs, ring) && Listed(bufs, ring) && b < |bufs| && Clean(bufs, disk)
    requires Ordered(bufs[b := x], ring) && x.valid && x.key == k && x.data == Current(bufs, disk, k)
    requires bufs[b].key == k || bufs[b].refcnt == 0
    ensures forall y: Key :: Current(bufs[b := x], disk, y) == Current(bufs, disk, y)
  {
    var t := bufs[b := x];
    assert Listed(t, ring) by { assert |t| == |bufs|; }
    forall y: Key ensures Current(t, disk, y) == Current(bufs, disk, y) {
      if y == k {
        assert Caches(t, b, k);
        CurrentIs(t, disk, ring, b, k);
      } else if Caches(bufs, b, y) {
        assert CleanAt(bufs, disk, b);
        CurrentIs(bufs, disk, ring, b, y);
        forall c: nat ensures !Caches(t, c, y) {
          if Caches(t, c, y) {
            assert ListedAt(|bufs|, ring, b) && ListedAt(|bufs|, ring, c);
            OneCopy(bufs, ring, b, c, y);
          }
        }
      } else {
        SameCurrent(bufs, disk, ring, b, x, ring, y);
      }
    }
  }

  /** Buffers that nobody holds agree with the disk. */
  ghost predicate CleanAt(bufs: seq<Buf>, disk: Disk, b: nat) {
    b < |bufs| && bufs[b].valid && bufs[b].refcnt == 0 ==> bufs[b].data == OnDisk(disk, bufs[b].key)
  }

  ghost predicate Clean(bufs: seq<Buf>, disk: Disk) {
    forall b: nat :: CleanAt(bufs, disk, b)
  }

  /** The buffer found for a block is invalid: then no buffer caches the block. */
  lemma NoCopy(bufs: seq<Buf>, ring: seq<nat>, b: nat, k: Key)
    requires Ordered(bufs, ring) && Listed(bufs, ring) && b < |bufs|
    requires if Cached(bufs, k) then exists p: nat :: FirstWith(bufs, ring, p, b, k) && !bufs[b].valid else true
    ensures forall c: nat :: !Caches(bufs, c, k)
  {
    if Cached(bufs, k) {
      var p: nat :| FirstWith(bufs, ring, p, b, k);
      forall c: nat ensures !Caches(bufs, c, k) {
        if c < |bufs| && c != b {
          assert ListedAt(|bufs|, ring, c);
          var q := Place(ring, c);
          assert OnlyFirst(bufs, ring, p, q);
        }
      }
    }
  }

  /** Buffer b is at place p of the ring and is the first with key k. */
  ghost predicate FirstWith(bufs: seq<Buf>, ring: seq<nat>, p: nat, b: nat, k: Key) {
    && 0 < p < |ring| && ring[p] == b && b < |bufs| && bufs[b].key == k
    && forall j :: 0 < j < p && ring[j] < |bufs| ==> bufs[ring[j]].key != k
  }

  /** A buffer that somebody holds is the one bget finds for its key. */
  lemma HolderFirst(bufs: seq<Buf>, ring: seq<nat>, p: nat, b: nat, c: nat)
    requires Ordered(bufs, ring) && Listed(bufs, ring) && c < |bufs| && bufs[c].refcnt > 0
    requires FirstWith(bufs, ring, p, b, bufs[c].key)
    ensures b == c
  {
    assert ListedAt(|bufs|, ring, c);
    var q := Place(ring, c);
    assert OnlyFirst(bufs, ring, p, q);
  }

  /** Readers of block x see what they saw, unless its copy, which nobody held, was replaced:
      then they see the disk. */
  ghost predicate SeenAfter(before: seq<Buf>, after: seq<Buf>, disk: Disk, b: nat, x: Key) {
    || Current(after, disk, x) == Current(before, disk, x)
    || (b < |before| && before[b].key == x && before[b].refcnt == 0 && Current(after, disk, x) == OnDisk(disk, x))
  }

  /** Reading a block into buffer b, seen by the readers of block y. */
  lemma Replaced(bufs: seq<Buf>, disk: Disk, ring: seq<nat>, b: nat, x: Buf, k: Key, y: Key)
    requires Ordered(bufs, ring) && Listed(bufs, ring) && b < |bufs|
    requires Ordered(bufs[b := x], ring) && x.valid && x.key == k && x.data == Current(bufs, disk, k)
    requires bufs[b].key == k || bufs[b].refcnt == 0
    ensures SeenAfter(bufs, bufs[b := x], disk, b, y)
  {
    var t := bufs[b := x];
    assert Listed(t, ring) by { assert |t| == |bufs|; }
    if y == k {
      assert Caches(t, b, k);
      CurrentIs(t, disk, ring, b, k);
    } else if Caches(bufs, b, y) {
      forall c: nat ensures !Caches(t, c, y) {
        if Caches(t, c, y) {
          assert ListedAt(|bufs|, ring, b) && ListedAt(|bufs|, ring, c);
          OneCopy(bufs, ring, b, c, y);
        }
      }
    } else {
      SameCurrent(bufs, disk, ring, b, x, ring, y);
    }
  }

  // ------------------------------------------------- runs of calls

  /** bread of a block; a change of the data of a buffer, its bwrite, brelse, bpin and bunpin.
      The last five do nothing when nobody holds the buffer. */
  datatype Op = Hold(k: Key) | Change(b: nat, d: seq<nat>) | Save(b: nat) | Release(b: nat) | Pin(b: nat) | Unpin(b: nat)

  /** What a call tells: the buffer and its data, the block that was changed, what went to the
      disk, the references that are left, or nothing. */
  datatype Reply =
    | Held(b: nat, data: seq<nat>)
    | Changed(k: Key)
    | Saved(k: Key, data: seq<nat>)
    | Left(refs: nat)
    | Nothing

  datatype Ref = Ref(key: Key, refs: nat)

  /** Without a cache: the blocks as last changed, the blocks as last saved, and which block
      each buffer number stands for, with its references. */
  datatype Desk = Desk(store: Disk, saved: Disk, held: map<nat, Ref>)

  /** Somebody holds block k as buffer b. */
  ghost predicate Holds(held: map<nat, Ref>, b: nat, k: Key) {
    b in held && held[b].key == k
  }

  ghost predicate Unheld(held: map<nat, Ref>, k: Key) {
    forall b: nat :: !Holds(held, b, k)
  }

  /** All n buffers are held, and none of them for block k: bget panics. */
  ghost predicate Jammed(n: nat, desk: Desk, k: Key) {
    (forall b: nat :: b < n ==> b in desk.held) && Unheld(desk.held, k)
  }

  /** The table after one reference to b less. */
  function Drop(held: map<nat, Ref>, b: nat): map<nat, Ref>
    requires b in held && held[b].refs > 0
  {
    if held[b].refs == 1 then held - {b} else held[b := Ref(held[b].key, held[b].refs - 1)]
  }

  function Add(held: map<nat, Ref>, b: nat, k: Key): map<nat, Ref> {
    held[b := Ref(k, if b in held then held[b].refs + 1 else 1)]
  }

  /** A bread of a block that is held gives that buffer and the block as last changed.  Of a
      block that nobody holds it gives a buffer that nobody holds, and data that were never
      saved may be lost. */
  ghost predicate HoldOk(n: nat, desk: Desk, k: Key, r: Reply) {
    && r.Held? && r.b < n && !Jammed(n, desk, k)
    && (forall c: nat :: Holds(desk.held, c, k) ==> r.b == c)
    && (Unheld(desk.held, k) ==> r.b !in desk.held)
    && (r.data == OnDisk(desk.store, k) || (Unheld(desk.held, k) && r.data == OnDisk(desk.saved, k)))
  }

  ghost predicate ReplyOk(n: nat, desk: Desk, op: Op, r: Reply) {
    match op
    case Hold(k) => HoldOk(n, desk, k, r)
    case Change(b, _) => r == if b in desk.held then Changed(desk.held[b].key) else Nothing
    case Save(b) =>
      r == if b in desk.held then Saved(desk.held[b].key, OnDisk(desk.store, desk.held[b].key)) else Nothing
    case Pin(b) => r == if b in desk.held then Left(desk.held[b].refs + 1) else Nothing
    case Release(b) => LessOk(desk, b, r)
    case Unpin(b) => LessOk(desk, b, r)
  }

  ghost predicate LessOk(desk: Desk, b: nat, r: Reply) {
    if b in desk.held then desk.held[b].refs > 0 && r == Left(desk.held[b].refs - 1) else r == Nothing
  }

  /** The desk after a call; only a bread leaves a choice, which its reply tells. */
  function DeskAfter(desk: Desk, op: Op, r: Reply): Desk {
    match op
    case Hold(k) =>
      if r.Held? then desk.(store := desk.store[k := r.data], held := Add(desk.held, r.b, k)) else desk
    case Change(b, d) =>
      if b in desk.held then desk.(store := desk.store[desk.held[b].key := d]) else desk
    case Save(b) =>
      if b in desk.held then
        var k := desk.held[b].key; desk.(saved := desk.saved[k := OnDisk(desk.store, k)])
      else desk
    case Pin(b) => if b in desk.held then desk.(held := Add(desk.held, b, desk.held[b].key)) else desk
    case Release(b) => Less(desk, b)
    case Unpin(b) => Less(desk, b)
  }

  function Less(desk: Desk, b: nat): Desk {
    if b in desk.held && desk.held[b].refs > 0 then desk.(held := Drop(desk.held, b)) else desk
  }

  ghost predicate CallAt(n: nat, ops: seq<Op>, rs: seq<Reply>, trace: seq<Desk>, i: nat) {
    i < |ops| && i < |rs| && i + 1 < |trace| ==>
      ReplyOk(n, trace[i], ops[i], rs[i]) && trace[i + 1] == DeskAfter(trace[i], ops[i], rs[i])
  }

  /** A run from trace[0]: every reply is right for the desk before it and makes the next. */
  ghost predicate History(n: nat, ops: seq<Op>, rs: seq<Reply>, trace: seq<Desk>) {
    |rs| <= |ops| && |trace| == |rs| + 1 && forall i: nat :: CallAt(n, ops, rs, trace, i)
  }

  lemma HistoryOn(n: nat, ops: seq<Op>, rs: seq<Reply>, trace: seq<Desk>, r: Reply)
    requires History(n, ops, rs, trace) && |rs| < |ops| && ReplyOk(n, trace[|rs|], ops[|rs|], r)
    ensures History(n, ops, rs + [r], trace + [DeskAfter(trace[|rs|], ops[|rs|], r)])
  {
    var more, long := rs + [r], trace + [DeskAfter(trace[|rs|], ops[|rs|], r)];
    forall i: nat ensures CallAt(n, ops, more, long, i) { assert CallAt(n, ops, rs, trace, i); }
  }

  /** What was changed and not saved is held. */
  ghost predicate SettledAt(desk: Desk, k: Key) {
    Unheld(desk.held, k) ==> OnDisk(desk.store, k) == OnDisk(desk.saved, k)
  }

  ghost predicate Settled(desk: Desk) {
    forall k: Key :: SettledAt(desk, k)
  }

  /** Nobody gives up the last reference to a block before it is saved. */
  predicate Careful(desk: Desk, op: Op) {
    (op.Release? || op.Unpin?) && op.b in desk.held && desk.held[op.b].refs == 1 ==>
      OnDisk(desk.store, desk.held[op.b].key) == OnDisk(desk.saved, desk.held[op.b].key)
  }

  lemma SettledStep(n: nat, desk: Desk, op: Op, r: Reply)
    requires Settled(desk) && Careful(desk, op) && ReplyOk(n, desk, op, r)
    ensures Settled(DeskAfter(desk, op, r)) && (op.Hold? ==> r.data == OnDisk(desk.store, op.k))
  {
    var next := DeskAfter(desk, op, r);
    if op.Hold? { assert SettledAt(desk, op.k); }
    forall k: Key ensures SettledAt(next, k) {
      assert SettledAt(desk, k);
      if Unheld(next.held, k) { SettledKey(n, desk, op, r, k); }
    }
  }

  lemma SettledKey(n: nat, desk: Desk, op: Op, r: Reply, k: Key)
    requires SettledAt(desk, k) && Careful(desk, op) && ReplyOk(n, desk, op, r) && Unheld(DeskAfter(desk, op, r).held, k)
    requires op.Hold? ==> SettledAt(desk, op.k)
    ensures OnDisk(DeskAfter(desk, op, r).store, k) == OnDisk(DeskAfter(desk, op, r).saved, k)
  {
    var next := DeskAfter(desk, op, r);
    if op.Hold? {
      assert !Holds(next.held, r.b, k);
      forall b: nat ensures !Holds(desk.held, b, k) {
        assert !Holds(next.held, b, k);
        if b == r.b && b in desk.held {
          var c: nat :| Holds(desk.held, c, op.k);
        }
      }
    } else {
      assert !Holds(next.held, op.b, k);
      if op.b !in desk.held || desk.held[op.b].key != k {
        forall b: nat ensures !Holds(desk.held, b, k) { assert !Holds(next.held, b, k); }
      }
    }
  }

  /** In a run in which everybody saves before the last release, every bread gives the block
      as last changed: the cache is invisible. */
  lemma {:induction false} Invisible(n: nat, ops: seq<Op>, rs: seq<Reply>, trace: seq<Desk>, i: nat)
    requires History(n, ops, rs, trace) && i < |rs| && Settled(trace[0])
    requires forall j :: 0 <= j <= i ==> Careful(trace[j], ops[j])
    ensures Settled(trace[i + 1]) && (ops[i].Hold? ==> rs[i].Held? && rs[i].data == OnDisk(trace[i].store, ops[i].k))
  {
    if i > 0 { Invisible(n, ops, rs, trace, i - 1); }
    assert CallAt(n, ops, rs, trace, i);
    SettledStep(n, trace[i], ops[i], rs[i]);
  }

  // ------------------------------------------------- what was changed last

  /** A call that changes no data of block k leaves it, whoever saves, pins or releases what. */
  lemma StoreStays(n: nat, desk: Desk, op: Op, r: Reply, k: Key)
    requires Settled(desk) && Careful(desk, op) && ReplyOk(n, desk, op, r) && r != Changed(k)
    ensures OnDisk(DeskAfter(desk, op, r).store, k) == OnDisk(desk.store, k)
  {
    SettledStep(n, desk, op, r);
  }

  lemma {:induction false} StaysSince(n: nat, ops: seq<Op>, rs: seq<Reply>, trace: seq<Desk>, i: nat, j: nat, k: Key)
    requires History(n, ops, rs, trace) && i <= j <= |rs| && Settled(trace[0])
    requires forall m :: 0 <= m < j ==> Careful(trace[m], ops[m])
    requires forall m :: i <= m < j ==> rs[m] != Changed(k)
    ensures OnDisk(trace[j].store, k) == OnDisk(trace[i].store, k)
    decreases j
  {
    if i < j {
      StaysSince(n, ops, rs, trace, i, j - 1, k);
      if j - 1 > 0 { Invisible(n, ops, rs, trace, j - 2); }
      assert CallAt(n, ops, rs, trace, j - 1);
      StoreStays(n, trace[j - 1], ops[j - 1], rs[j - 1], k);
    }
  }

  /** A bread gives, and a bwrite puts on the disk, the data of the last change of the block. */
  lemma LastChange(n: nat, ops: seq<Op>, rs: seq<Reply>, trace: seq<Desk>, i: nat, j: nat, k: Key)
    requires History(n, ops, rs, trace) && i < j < |rs| && Settled(trace[0])
    requires forall m :: 0 <= m <= j ==> Careful(trace[m], ops[m])
    requires ops[i].Change? && rs[i] == Changed(k) && forall m :: i < m < j ==> rs[m] != Changed(k)
    ensures ops[j] == Hold(k) ==> rs[j].Held? && rs[j].data == ops[i].d
    ensures rs[j].Saved? && rs[j].k == k ==> rs[j].data == ops[i].d
  {
    assert CallAt(n, ops, rs, trace, i) && CallAt(n, ops, rs, trace, j);
    StaysSince(n, ops, rs, trace, i + 1, j, k);
    Invisible(n, ops, rs, trace, j);
  }

  /** As long as the block is held, a bread gives the last change even if nobody saves. */
  lemma {:induction false} StaysHeld(n: nat, ops: seq<Op>, rs: seq<Reply>, trace: seq<Desk>, i: nat, j: nat, k: Key)
    requires History(n, ops, rs, trace) && i <= j <= |rs|
    requires forall m :: i <= m <= j ==> !Unheld(trace[m].held, k)
    requires forall m :: i <= m < j ==> rs[m] != Changed(k)
    ensures OnDisk(trace[j].store, k) == OnDisk(trace[i].store, k)
    decreases j
  {
    if i < j {
      StaysHeld(n, ops, rs, trace, i, j - 1, k);
      assert CallAt(n, ops, rs, trace, j - 1);
    }
  }

  lemma HeldChange(n: nat, ops: seq<Op>, rs: seq<Reply>, trace: seq<Desk>, i: nat, j: nat, k: Key)
    requires History(n, ops, rs, trace) && i < j < |rs| && ops[i].Change? && rs[i] == Changed(k) && ops[j] == Hold(k)
    requires forall m :: i < m <= j ==> !Unheld(trace[m].held, k)
    requires forall m :: i < m < j ==> rs[m] != Changed(k)
    ensures rs[j].Held? && rs[j].data == ops[i].d
  {
    assert CallAt(n, ops, rs, trace, i) && CallAt(n, ops, rs, trace, j);
    StaysHeld(n, ops, rs, trace, i + 1, j, k);
  }

  // ------------------------------------------------- references are counted

  function Refs(desk: Desk, b: nat): nat {
    if b in desk.held then desk.held[b].refs else 0
  }

  /** Calls before i that took a reference to buffer b, and calls that gave one up. */
  function Taken(ops: seq<Op>, rs: seq<Reply>, b: nat, i: nat): nat
    requires i <= |ops| && i <= |rs|
  {
    if i == 0 then 0
    else
      var op, r := ops[i - 1], rs[i - 1];
      Taken(ops, rs, b, i - 1) + if (r.Held? && r.b == b) || (op == Pin(b) && r.Left?) then 1 else 0
  }

  function Given(ops: seq<Op>, rs: seq<Reply>, b: nat, i: nat): nat
    requires i <= |ops| && i <= |rs|
  {
    if i == 0 then 0
    else Given(ops, rs, b, i - 1) + if (ops[i - 1] == Release(b) || ops[i - 1] == Unpin(b)) && rs[i - 1].Left? then 1 else 0
  }

  lemma RefsStep(n: nat, desk: Desk, op: Op, r: Reply, b: nat)
    requires ReplyOk(n, desk, op, r)
    ensures Refs(DeskAfter(desk, op, r), b) + (if (op == Release(b) || op == Unpin(b)) && r.Left? then 1 else 0)
         == Refs(desk, b) + (if (r.Held? && r.b == b) || (op == Pin(b) && r.Left?) then 1 else 0)
    ensures r.Left? && !op.Hold? && op.b == b ==> r.refs == Refs(DeskAfter(desk, op, r), b)
  {
  }

  /** The references to a buffer are those taken less those given up, and what brelse, bpin and
      bunpin tell is their number. */
  lemma {:induction false} RefsCounted(n: nat, ops: seq<Op>, rs: seq<Reply>, trace: seq<Desk>, b: nat, i: nat)
    requires History(n, ops, rs, trace) && i <= |rs|
    ensures Refs(trace[i], b) + Given(ops, rs, b, i) == Refs(trace[0], b) + Taken(ops, rs, b, i)
    ensures i < |rs| && rs[i].Left? && !ops[i].Hold? && ops[i].b == b ==> rs[i].refs == Refs(trace[i + 1], b)
  {
    if i > 0 {
      RefsCounted(n, ops, rs, trace, b, i - 1);
      assert CallAt(n, ops, rs, trace, i - 1);
      RefsStep(n, trace[i - 1], ops[i - 1], rs[i - 1], b);
    }
    if i < |rs| {
      assert CallAt(n, ops, rs, trace, i);
      RefsStep(n, trace[i], ops[i], rs[i], b);
    }
  }

  // ------------------------------------------------- the cache and the desk

  /** A held buffer is the one of the desk, with its block and references. */
  ghost predicate TiedAt(bufs: seq<Buf>, held: map<nat, Ref>, b: nat) {
    && (b in held <==> b < |bufs| && bufs[b].refcnt > 0)
    && (b in held && b < |bufs| ==> bufs[b].valid && held[b] == Ref(bufs[b].key, bufs[b].refcnt))
  }

  ghost predicate Tied(bufs: seq<Buf>, held: map<nat, Ref>) {
    forall b: nat :: TiedAt(bufs, held, b)
  }

  /** Readers of x see the block as last changed, or, if nobody holds it, as last saved. */
  ghost predicate Shows(bufs: seq<Buf>, disk: Disk, desk: Desk, x: Key) {
    || Current(bufs, disk, x) == OnDisk(desk.store, x)
    || (Unheld(desk.held, x) && Current(bufs, disk, x) == OnDisk(disk, x))
  }

  lemma TiedHolder(bufs: seq<Buf>, held: map<nat, Ref>, k: Key)
    requires Tied(bufs, held)
    ensures Unheld(held, k) <==> forall b :: 0 <= b < |bufs| && bufs[b].refcnt > 0 ==> bufs[b].key != k
  {
    if Unheld(held, k) {
      forall b: nat | b < |bufs| && bufs[b].refcnt > 0 ensures bufs[b].key != k {
        assert TiedAt(bufs, held, b) && !Holds(held, b, k);
      }
    } else {
      var b: nat :| Holds(held, b, k);
      assert TiedAt(bufs, held, b) && bufs[b].key == k;
    }
  }

  lemma TiedJam(bufs: seq<Buf>, desk: Desk, k: Key)
    requires Tied(bufs, desk.held)
    ensures Jammed(|bufs|, desk, k) <==> !Cached(bufs, k) && AllBusy(bufs)
  {
    TiedHolder(bufs, desk.held, k);
    if Jammed(|bufs|, desk, k) {
      forall b: nat | b < |bufs| ensures bufs[b].refcnt > 0 && bufs[b].key != k { assert TiedAt(bufs, desk.held, b); }
    } else if !Cached(bufs, k) && AllBusy(bufs) {
      forall b: nat | b < |bufs| ensures b in desk.held { assert TiedAt(bufs, desk.held, b); }
    }
  }

  /** The tables differ at b only. */
  ghost predicate SameAt(held: map<nat, Ref>, next: map<nat, Ref>, c: nat) {
    (c in next <==> c in held) && (c in held && c in next ==> next[c] == held[c])
  }

  lemma TiedOne(bufs: seq<Buf>, held: map<nat, Ref>, b: nat, x: Buf, next: map<nat, Ref>)
    requires Tied(bufs, held) && b < |bufs| && TiedAt(bufs[b := x], next, b)
    requires forall c: nat :: c != b ==> SameAt(held, next, c)
    ensures Tied(bufs[b := x], next)
  {
    var t := bufs[b := x];
    forall c: nat ensures TiedAt(t, next, c) {
      if c != b { assert TiedAt(bufs, held, c) && SameAt(held, next, c); }
    }
  }

  /** Fewer or the same blocks are held: what readers may see stays so. */
  lemma ShowsOn(bufs: seq<Buf>, after: seq<Buf>, disk: Disk, desk: Desk, held: map<nat, Ref>, x: Key)
    requires Shows(bufs, disk, desk, x) && Current(after, disk, x) == Current(bufs, disk, x)
    requires Unheld(desk.held, x) ==> Unheld(held, x)
    ensures Shows(after, disk, desk.(held := held), x)
  {
  }

  lemma DropUnheld(held: map<nat, Ref>, b: nat, x: Key)
    requires b in held && held[b].refs > 0 && Unheld(held, x)
    ensures Unheld(Drop(held, b), x)
  {
    forall c: nat ensures !Holds(Drop(held, b), c, x) { assert !Holds(held, c, x) && !Holds(held, b, x); }
  }

  lemma AddUnheld(held: map<nat, Ref>, b: nat, k: Key, x: Key)
    requires Unheld(held, x) && x != k
    ensures Unheld(Add(held, b, k), x)
  {
    forall c: nat ensures !Holds(Add(held, b, k), c, x) { assert !Holds(held, c, x); }
  }

  lemma HoldReply(s: seq<Buf>, disk: Disk, desk: Desk, k: Key, b: nat, data: seq<nat>)
    requires Tied(s, desk.held) && Shows(s, disk, desk, k) && disk == desk.saved && b < |s|
    requires !Jammed(|s|, desk, k) && data == Current(s, disk, k)
    requires forall c :: 0 <= c < |s| && s[c].refcnt > 0 && s[c].key == k ==> c == b
    requires s[b].refcnt == 0 || s[b].key == k
    ensures HoldOk(|s|, desk, k, Held(b, data))
  {
    forall c: nat | Holds(desk.held, c, k) ensures b == c { assert TiedAt(s, desk.held, c); }
    assert TiedAt(s, desk.held, b);
    if b in desk.held { assert Holds(desk.held, b, k); }
  }

  lemma HoldShows(s: seq<Buf>, t: seq<Buf>, disk: Disk, ring: seq<nat>, desk: Desk, b: nat, k: Key, x: Key)
    requires Tied(s, desk.held) && Shows(s, disk, desk, x) && b < |s| == |t| && t == s[b := t[b]] && Caches(t, b, k)
    requires Ordered(s, ring) && Ordered(t, ring) && Listed(s, ring) && Listed(t, ring)
    requires SeenAfter(s, t, disk, b, x)
    ensures Shows(t, disk, DeskAfter(desk, Hold(k), Held(b, t[b].data)), x)
  {
    if x == k {
      CurrentIs(t, disk, ring, b, k);
    } else if Unheld(desk.held, x) {
      AddUnheld(desk.held, b, k, x);
    } else {
      var c: nat :| Holds(desk.held, c, x);
      assert TiedAt(s, desk.held, c);
      if c != b {
        assert Caches(s, c, x) && Caches(t, c, x);
        CurrentIs(s, disk, ring, c, x);
        CurrentIs(t, disk, ring, c, x);
      }
    }
  }

  lemma BlankShows(bufs: seq<Buf>, disk: Disk)
    requires forall b :: 0 <= b < |bufs| ==> bufs[b] == BLANK
    ensures Tied(bufs, map[]) && Settled(Desk(disk, disk, map[]))
    ensures forall x: Key :: Shows(bufs, disk, Desk(disk, disk, map[]), x)
  {
    var none: map<nat, Ref> := map[];
    var desk := Desk(disk, disk, none);
    forall b: nat ensures TiedAt(bufs, none, b) {}
    forall x: Key ensures Shows(bufs, disk, desk, x) {
      forall b: nat ensures !Caches(bufs, b, x) {}
    }
    forall x: Key ensures SettledAt(desk, x) {}
  }

  class Cache {
    const n: nat
    const next: array<nat>
    const prev: array<nat>
    var bufs: seq<Buf>
    var disk: Disk
    ghost var ring: seq<nat>

    ghost predicate Shape()
      reads this, next, prev
    {
      next != prev && |bufs| == n && next.Length == n + 1 && prev.Length == n + 1 && Links(next[..], prev[..], ring, n)
    }

    ghost predicate Valid()
      reads this, next, prev
    {
      Shape() && Listed(bufs, ring) && Ordered(bufs, ring)
    }

    /** binit: the buffers in the order in which they were put in front. */
    constructor (count: nat, contents: Disk)
      ensures Valid() && n == count && disk == contents && fresh(next) && fresh(prev)
      ensures bufs == seq(count, _ => BLANK) && Coherent(Desk(contents, contents, map[]))
    {
      n := count;
      next := new nat[count + 1](_ => count);
      prev := new nat[count + 1](_ => count);
      bufs := seq(count, _ => BLANK);
      disk := contents;
      ring := [count];
      new;
      var b := 0;
      while b < n
        invariant b <= n && bufs == seq(count, _ => BLANK) && disk == contents && Shape()
        invariant forall x: nat :: x in ring <==> x < b || x == n
      {
        ghost var r := ring;
        InsertFront(b);
        forall x: nat ensures x in ring <==> x == b || x in r { FrontHas(r, b, x); }
        b := b + 1;
      }
      forall x: nat ensures ListedAt(|bufs|, ring, x) {
        if x < n {
          assert x in ring;
          var p :| 0 <= p < |ring| && ring[p] == x;
          assert ring[1..][p - 1] == x;
        }
      }
      BlankShows(bufs, disk);
    }

    /** Links entry b, which is not in the list, behind the head. */
    method InsertFront(b: nat)
      requires Shape() && b < n && b !in ring
      modifies next, prev, this`ring
      ensures Shape() && ring == WithFront(old(ring), b)
    {
      InsertKeeps(next[..], prev[..], ring, n, b);
      ghost var x, y := next[..], prev[..];
      var first := next[n];
      next[b] := first;
      prev[b] := n;
      prev[first] := b;
      next[n] := b;
      ring := WithFront(ring, b);
      ghost var x1: seq<nat>, y1: seq<nat> := x[b := first], y[b := n];
      assert next[..] == x1[n := b] && prev[..] == y1[first := b];
    }

    /** Takes the entry at place p of the ring out of the list. */
    method Unlink(b: nat, ghost p: nat)
      requires Shape() && 0 < p < |ring| && ring[p] == b
      modifies next, prev, this`ring
      ensures Shape() && ring == Without(old(ring), p)
    {
      UnlinkKeeps(next[..], prev[..], ring, n, p);
      ghost var x, y := next[..], prev[..];
      prev[next[b]] := prev[b];
      next[prev[b]] := next[b];
      ring := Without(ring, p);
      assert prev[..] == y[x[b] := y[b]];
      assert next[..] == x[y[b] := x[b]];
    }

    /** The first buffer in the list with the key, or n. */
    method Lookup(k: Key) returns (b: nat, ghost p: nat)
      requires Valid()
      ensures b <= n && 0 < p <= |ring|
      ensures forall j :: 0 < j < p ==> bufs[ring[j]].key != k
      ensures if b < n then p < |ring| && ring[p] == b && bufs[b].key == k else p == |ring|
    {
      assert LinkAt(next[..], prev[..], ring, 0);
      b, p := next[n], 1;
      while b != n
        invariant 0 < p <= |ring| && b == if p < |ring| then ring[p] else n
        invariant forall j :: 0 < j < p ==> bufs[ring[j]].key != k
        decreases |ring| - p
      {
        if bufs[b].key == k { return; }
        assert LinkAt(next[..], prev[..], ring, p);
        b, p := next[b], p + 1;
      }
    }

    /** The last unreferenced buffer in the list, or n. */
    method LeastRecent() returns (b: nat, ghost p: nat)
      requires Valid()
      ensures b <= n && p < |ring| && ring[p] == b
      ensures forall j :: p < j < |ring| ==> bufs[ring[j]].refcnt > 0
      ensures b < n ==> 0 < p && bufs[b].refcnt == 0
      ensures b == n ==> p == 0
    {
      assert LinkAt(next[..], prev[..], ring, |ring| - 1);
      b, p := prev[n], |ring| - 1;
      while b != n
        invariant p < |ring| && b == ring[p]
        invariant forall j :: p < j < |ring| ==> bufs[ring[j]].refcnt > 0
        decreases p
      {
        if bufs[b].refcnt == 0 { return; }
        assert LinkAt(next[..], prev[..], ring, p - 1);
        b, p := prev[b], p - 1;
      }
    }

    /** bget: the cached buffer with one more reference, else the least recently used
        unreferenced one given the new key; no such buffer is the panic. */
    method Bget(k: Key) returns (ok: bool, b: nat)
      requires Valid()
      modifies this`bufs
      ensures Valid()
      ensures ok ==> b < n && bufs[b].key == k && bufs[b].refcnt > 0
      ensures ok && Cached(old(bufs), k) ==> bufs == old(bufs)[b := old(bufs)[b].(refcnt := old(bufs)[b].refcnt + 1)]
      ensures ok && !Cached(old(bufs), k) ==> old(bufs)[b].refcnt == 0 && bufs == old(bufs)[b := old(bufs)[b].(key := k, valid := false, refcnt := 1)]
      ensures ok && !Cached(old(bufs), k) ==> exists p: nat :: LastFree(old(bufs), ring, p, b)
      ensures ok && Cached(old(bufs), k) ==> exists p: nat :: FirstWith(old(bufs), ring, p, b, k)
      ensures !ok <==> !Cached(old(bufs), k) && AllBusy(old(bufs))
      ensures !ok ==> bufs == old(bufs)
    {
      ghost var p;
      b, p := Lookup(k);
      if b != n {
        assert FirstWith(bufs, ring, p, b, k);
        HitKeeps(bufs, ring, p);
        bufs := bufs[b := bufs[b].(refcnt := bufs[b].refcnt + 1)];
        return true, b;
      }
      forall c: nat | c < n ensures bufs[c].key != k { assert ListedAt(|bufs|, ring, c); var q := Place(ring, c); }
      b, p := LeastRecent();
      if b != n {
        RecycleKeeps(bufs, ring, p, k);
        assert LastFree(bufs, ring, p, b);
        bufs := bufs[b := bufs[b].(key := k, valid := false, refcnt := 1)];
        return true, b;
      }
      forall c: nat | c < n ensures bufs[c].refcnt > 0 { assert ListedAt(|bufs|, ring, c); var q := Place(ring, c); }
      return false, 0;
    }

    /** bread: the buffer holds what a reader of the block sees. */
    method Bread(k: Key) returns (ok: bool, b: nat)
      requires Valid()
      modifies this`bufs
      ensures Valid() && (!ok <==> !Cached(old(bufs), k) && AllBusy(old(bufs)))
      ensures ok ==> b < n && Caches(bufs, b, k) && bufs[b].refcnt > 0 && bufs[b].data == Current(old(bufs), disk, k)
      ensures ok ==> bufs == old(bufs)[b := bufs[b]] && bufs[b].refcnt == old(bufs)[b].refcnt + 1
      ensures ok ==> forall x: Key :: x != old(bufs)[b].key ==> Current(bufs, disk, x) == Current(old(bufs), disk, x)
      ensures ok ==> forall x: Key :: SeenAfter(old(bufs), bufs, disk, b, x)
      ensures ok ==> forall c :: 0 <= c < n && old(bufs)[c].refcnt > 0 && old(bufs)[c].key == k ==> c == b
      ensures ok ==> old(bufs)[b].refcnt == 0 || old(bufs)[b].key == k
      ensures !ok ==> bufs == old(bufs)
      ensures Clean(old(bufs), disk) ==> Clean(bufs, disk) && forall x: Key :: Current(bufs, disk, x) == Current(old(bufs), disk, x)
      ensures ok && Clean(old(bufs), disk) && bufs[b].refcnt == 1 ==> bufs[b].data == OnDisk(disk, k)
    {
      ghost var s := bufs;
      ok, b := Bget(k);
      if !ok { return; }
      if !bufs[b].valid {
        NoCopy(s, ring, b, k);
        TouchKeeps(bufs, ring, b, bufs[b].(valid := true, data := OnDisk(disk, k)));
        bufs := bufs[b := bufs[b].(valid := true, data := OnDisk(disk, k))];
      } else {
        CurrentIs(s, disk, ring, b, k);
      }
      assert bufs == s[b := bufs[b]];
      forall x: Key | x != s[b].key ensures Current(bufs, disk, x) == Current(s, disk, x) {
        if x == k { CurrentIs(bufs, disk, ring, b, k); } else { SameCurrent(s, disk, ring, b, bufs[b], ring, x); }
      }
      forall x: Key ensures SeenAfter(s, bufs, disk, b, x) { Replaced(s, disk, ring, b, bufs[b], k, x); }
      forall c: nat | c < n && s[c].refcnt > 0 && s[c].key == k ensures c == b {
        var p: nat :| FirstWith(s, ring, p, b, k);
        HolderFirst(s, ring, p, b, c);
      }
      if Clean(s, disk) {
        forall c: nat ensures CleanAt(bufs, disk, c) { assert CleanAt(s, disk, c); }
        assert CleanAt(s, disk, b);
        Evicted(s, disk, ring, b, bufs[b], k);
      }
    }

    /** The holder of a buffer changes its data. */
    method Store(b: nat, d: seq<nat>)
      requires Valid() && b < n && bufs[b].valid && bufs[b].refcnt > 0
      modifies this`bufs
      ensures Valid() && bufs == old(bufs)[b := old(bufs)[b].(data := d)]
      ensures forall x: Key :: Current(bufs, disk, x) == if x == bufs[b].key then d else Current(old(bufs), disk, x)
    {
      ghost var s := bufs;
      TouchKeeps(bufs, ring, b, bufs[b].(data := d));
      bufs := bufs[b := bufs[b].(data := d)];
      assert Caches(bufs, b, bufs[b].key);
      CurrentIs(bufs, disk, ring, b, bufs[b].key);
      forall x: Key | x != bufs[b].key ensures Current(bufs, disk, x) == Current(s, disk, x) {
        SameCurrent(s, disk, ring, b, bufs[b], ring, x);
      }
    }

    /** bwrite: the data goes to the disk; readers see no difference. */
    method Bwrite(b: nat)
      requires Valid() && b < n && bufs[b].valid && bufs[b].refcnt > 0
      modifies this`disk
      ensures Valid() && disk == old(disk)[bufs[b].key := bufs[b].data]
      ensures forall x: Key :: Current(bufs, disk, x) == Current(bufs, old(disk), x)
      ensures Clean(bufs, old(disk)) ==> Clean(bufs, disk)
    {
      ghost var d := disk;
      disk := disk[bufs[b].key := bufs[b].data];
      assert Caches(bufs, b, bufs[b].key);
      forall x: Key ensures Current(bufs, disk, x) == Current(bufs, d, x) {
        if c: nat :| Caches(bufs, c, x) {
          CurrentIs(bufs, d, ring, c, x);
          CurrentIs(bufs, disk, ring, c, x);
        }
      }
      if Clean(bufs, d) {
        forall c: nat ensures CleanAt(bufs, disk, c) {
          assert CleanAt(bufs, d, c);
          if c < n && Caches(bufs, c, bufs[b].key) {
            CurrentIs(bufs, d, ring, c, bufs[b].key);
            CurrentIs(bufs, d, ring, b, bufs[b].key);
          }
        }
      }
    }

    method Bpin(b: nat)
      requires Valid() && b < n && bufs[b].refcnt > 0
      modifies this`bufs
      ensures Valid() && bufs == old(bufs)[b := old(bufs)[b].(refcnt := old(bufs)[b].refcnt + 1)]
      ensures forall x: Key :: Current(bufs, disk, x) == Current(old(bufs), disk, x)
    {
      ghost var s := bufs;
      TouchKeeps(bufs, ring, b, bufs[b].(refcnt := bufs[b].refcnt + 1));
      bufs := bufs[b := bufs[b].(refcnt := bufs[b].refcnt + 1)];
      forall x: Key ensures Current(bufs, disk, x) == Current(s, disk, x) {
        SameCurrent(s, disk, ring, b, bufs[b], ring, x);
      }
    }

    method Bunpin(b: nat)
      requires Valid() && b < n && bufs[b].refcnt > 0
      modifies this`bufs
      ensures Valid() && bufs == old(bufs)[b := old(bufs)[b].(refcnt := old(bufs)[b].refcnt - 1)]
      ensures forall x: Key :: Current(bufs, disk, x) == Current(old(bufs), disk, x)
    {
      ghost var s := bufs;
      TouchKeeps(bufs, ring, b, bufs[b].(refcnt := bufs[b].refcnt - 1));
      bufs := bufs[b := bufs[b].(refcnt := bufs[b].refcnt - 1)];
      forall x: Key ensures Current(bufs, disk, x) == Current(s, disk, x) {
        SameCurrent(s, disk, ring, b, bufs[b], ring, x);
      }
    }

    /** brelse: one reference less; the last one moves the buffer to the front. */
    method Brelse(b: nat)
      requires Valid() && b < n && bufs[b].refcnt > 0
      modifies this`bufs, this`ring, next, prev
      ensures Valid() && bufs == old(bufs)[b := old(bufs)[b].(refcnt := old(bufs)[b].refcnt - 1)]
      ensures bufs[b].refcnt > 0 ==> ring == old(ring)
      ensures bufs[b].refcnt == 0 ==> exists p: nat :: ToFront(old(ring), ring, p, b)
      ensures forall x: Key :: Current(bufs, disk, x) == Current(old(bufs), disk, x)
      ensures Clean(old(bufs), disk) && CleanAt(bufs, disk, b) ==> Clean(bufs, disk)
    {
      ghost var s, r := bufs, ring;
      assert ListedAt(|bufs|, ring, b);
      ghost var p := Place(ring, b);
      TouchKeeps(bufs, ring, b, bufs[b].(refcnt := bufs[b].refcnt - 1));
      bufs := bufs[b := bufs[b].(refcnt := bufs[b].refcnt - 1)];
      if bufs[b].refcnt == 0 {
        MoveKeeps(s, r, p);
        Unlink(b, p);
        InsertFront(b);
        forall x: nat ensures ListedAt(|bufs|, ring, x) { assert ListedAt(|s|, r, x); MovedListed(n, r, p, x); }
        assert ToFront(r, ring, p, b);
      }
      forall x: Key ensures Current(bufs, disk, x) == Current(s, disk, x) {
        SameCurrent(s, disk, r, b, bufs[b], ring, x);
      }
      if Clean(s, disk) && CleanAt(bufs, disk, b) {
        forall c: nat ensures CleanAt(bufs, disk, c) { assert CleanAt(s, disk, c); }
      }
    }

    /** The cache stands for the desk. */
    ghost predicate Coherent(desk: Desk)
      reads this, next, prev
    {
      Valid() && disk == desk.saved && Tied(bufs, desk.held) && forall x: Key :: Shows(bufs, disk, desk, x)
    }

    method HoldStep(k: Key, ghost desk: Desk) returns (ok: bool, r: Reply)
      requires Coherent(desk)
      modifies this`bufs
      ensures !ok <==> Jammed(n, desk, k)
      ensures !ok ==> Coherent(desk)
      ensures ok ==> HoldOk(n, desk, k, r) && Coherent(DeskAfter(desk, Hold(k), r))
    {
      ghost var s := bufs;
      TiedJam(bufs, desk, k);
      var b;
      ok, b := Bread(k);
      if !ok { return false, Nothing; }
      r := Held(b, bufs[b].data);
      assert Shows(s, disk, desk, k);
      HoldReply(s, disk, desk, k, b, bufs[b].data);
      ghost var to := DeskAfter(desk, Hold(k), r);
      forall x: Key ensures Shows(bufs, disk, to, x) {
        assert Shows(s, disk, desk, x) && SeenAfter(s, bufs, disk, b, x);
        HoldShows(s, bufs, disk, ring, desk, b, k, x);
      }
      assert TiedAt(s, desk.held, b);
      TiedOne(s, desk.held, b, bufs[b], to.held);
    }

    method ChangeStep(b: nat, data: seq<nat>, ghost desk: Desk) returns (r: Reply)
      requires Coherent(desk)
      modifies this`bufs
      ensures ReplyOk(n, desk, Change(b, data), r) && Coherent(DeskAfter(desk, Change(b, data), r))
    {
      ghost var s := bufs;
      assert TiedAt(s, desk.held, b);
      if b >= n || bufs[b].refcnt == 0 { return Nothing; }
      r := Changed(bufs[b].key);
      Store(b, data);
      ghost var to := DeskAfter(desk, Change(b, data), r);
      forall x: Key ensures Shows(bufs, disk, to, x) { assert Shows(s, disk, desk, x); }
      TiedOne(s, desk.held, b, bufs[b], desk.held);
    }

    method SaveStep(b: nat, ghost desk: Desk) returns (r: Reply)
      requires Coherent(desk)
      modifies this`disk
      ensures ReplyOk(n, desk, Save(b), r) && Coherent(DeskAfter(desk, Save(b), r))
    {
      ghost var was := disk;
      assert TiedAt(bufs, desk.held, b);
      if b >= n || bufs[b].refcnt == 0 { return Nothing; }
      r := Saved(bufs[b].key, bufs[b].data);
      assert Shows(bufs, disk, desk, bufs[b].key) && Holds(desk.held, b, bufs[b].key) && Caches(bufs, b, bufs[b].key);
      CurrentIs(bufs, disk, ring, b, bufs[b].key);
      Bwrite(b);
      ghost var to := DeskAfter(desk, Save(b), r);
      forall x: Key ensures Shows(bufs, disk, to, x) { assert Shows(bufs, was, desk, x); }
    }

    /** brelse, or bunpin if the buffer stays where it is in the list. */
    method LessStep(b: nat, unpin: bool, ghost desk: Desk) returns (r: Reply)
      requires Coherent(desk)
      modifies this`bufs, this`ring, next, prev
      ensures LessOk(desk, b, r) && Coherent(Less(desk, b))
    {
      ghost var s := bufs;
      assert TiedAt(s, desk.held, b);
      if b >= n || bufs[b].refcnt == 0 { return Nothing; }
      r := Left(bufs[b].refcnt - 1);
      if unpin { Bunpin(b); } else { Brelse(b); }
      ghost var held := Drop(desk.held, b);
      forall x: Key ensures Shows(bufs, disk, desk.(held := held), x) {
        assert Shows(s, disk, desk, x);
        if Unheld(desk.held, x) { DropUnheld(desk.held, b, x); }
        ShowsOn(s, bufs, disk, desk, held, x);
      }
      TiedOne(s, desk.held, b, bufs[b], held);
    }

    method PinStep(b: nat, ghost desk: Desk) returns (r: Reply)
      requires Coherent(desk)
      modifies this`bufs
      ensures ReplyOk(n, desk, Pin(b), r) && Coherent(DeskAfter(desk, Pin(b), r))
    {
      ghost var s := bufs;
      assert TiedAt(s, desk.held, b);
      if b >= n || bufs[b].refcnt == 0 { return Nothing; }
      r := Left(bufs[b].refcnt + 1);
      Bpin(b);
      ghost var held := Add(desk.held, b, desk.held[b].key);
      forall x: Key ensures Shows(bufs, disk, desk.(held := held), x) {
        assert Shows(s, disk, desk, x);
        if Unheld(desk.held, x) {
          assert !Holds(desk.held, b, x);
          AddUnheld(desk.held, b, desk.held[b].key, x);
        }
        ShowsOn(s, bufs, disk, desk, held, x);
      }
      TiedOne(s, desk.held, b, bufs[b], held);
    }

    /** One call; not ok is the panic of bget. */
    method Step(op: Op, ghost desk: Desk) returns (ok: bool, r: Reply)
      requires Coherent(desk)
      modifies this, next, prev
      ensures !ok <==> op.Hold? && Jammed(n, desk, op.k)
      ensures ok ==> ReplyOk(n, desk, op, r) && Coherent(DeskAfter(desk, op, r))
    {
      ok, r := true, Nothing;
      match op {
        case Hold(k) => ok, r := HoldStep(k, desk);
        case Change(b, data) => r := ChangeStep(b, data, desk);
        case Save(b) => r := SaveStep(b, desk);
        case Release(b) => r := LessStep(b, false, desk);
        case Pin(b) => r := PinStep(b, desk);
        case Unpin(b) => r := LessStep(b, true, desk);
      }
    }

    /** Any run of calls, with buffers held as long as their holders like, answers as the desk
        does; it ends early exactly at the panic of bget. */
    method Run(ops: seq<Op>, ghost desk: Desk) returns (rs: seq<Reply>, ghost trace: seq<Desk>)
      requires Coherent(desk)
      modifies this, next, prev
      ensures History(n, ops, rs, trace) && trace[0] == desk
      ensures |rs| == |ops| ==> Coherent(trace[|rs|])
      ensures |rs| < |ops| ==> ops[|rs|].Hold? && Jammed(n, trace[|rs|], ops[|rs|].k)
    {
      rs, trace := [], [desk];
      while |rs| < |ops|
        invariant History(n, ops, rs, trace) && trace[0] == desk && Coherent(trace[|rs|])
      {
        ghost var now := trace[|rs|];
        var ok, r := Step(ops[|rs|], now);
        if !ok { return; }
        HistoryOn(n, ops, rs, trace, r);
        trace := trace + [DeskAfter(now, ops[|rs|], r)];
        rs := rs + [r];
      }
    }
  }
  lemma OnlyBuffer(bufs: seq<Buf>, disk: Disk, k: Key)
    requires |bufs| == 1
    ensures Current(bufs, disk, k) == if bufs[0].valid && bufs[0].key == k then bufs[0].data else OnDisk(disk, k)
  {
    assert Caches(bufs, 0, k) <==> bufs[0].valid && bufs[0].key == k;
  }

  /** bread in a cache with one buffer, which nobody holds. */
  method BreadOnly(c: Cache, k: Key)
    requires c.Valid() && c.n == 1 && c.bufs[0].refcnt == 0
    modifies c`bufs
    ensures c.Valid() && c.bufs[0].key == k && c.bufs[0].valid && c.bufs[0].refcnt == 1
    ensures c.bufs[0].data == if old(c.bufs)[0].valid && old(c.bufs)[0].key == k then old(c.bufs)[0].data else OnDisk(c.disk, k)
  {
    OnlyBuffer(c.bufs, c.disk, k);
    assert !AllBusy(c.bufs);
    var ok, b := c.Bread(k);
    assert b == 0;
  }

  /** With one buffer: a change that is released unsaved is still seen, until another block
      is read. */
  method ForgottenChange(d: seq<nat>) returns (c: Cache, seen: seq<nat>, again: seq<nat>)
    ensures c.disk == map[] && seen == d && again == []
  {
    var a, z := Key(1, 1), Key(1, 2);
    c := new Cache(1, map[]);
    BreadOnly(c, a);
    c.Store(0, d);
    c.Brelse(0);
    BreadOnly(c, a);
    seen := c.bufs[0].data;
    c.Brelse(0);
    BreadOnly(c, z);
    c.Brelse(0);
    BreadOnly(c, a);
    again := c.bufs[0].data;
  }
}
