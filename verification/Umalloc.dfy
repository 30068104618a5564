/**
 The free list of user/umalloc.c (Kernighan and Ritchie, section 8.7), as values.
 Addresses and sizes count units of one Header (16 bytes).
 */
module FreeList {

  /** A block: the address of its header and its size, header included. */
  datatype Blk = Blk(a: nat, n: nat)

  predicate Covers(b: Blk, u: nat) {
    b.a <= u < b.a + b.n
  }

  predicate InFree(free: seq<Blk>, u: nat) {
    exists i :: 0 <= i < |free| && Covers(free[i], u)
  }

  /** In address order, and no block touches the next one. */
  predicate Sorted(free: seq<Blk>) {
    forall i: nat, j: nat :: i < j < |free| ==> Before(free, i, j)
  }

  predicate Before(free: seq<Blk>, i: nat, j: nat)
    requires i < |free| && j < |free|
  {
    free[i].a + free[i].n < free[j].a
  }

  /** The list: `base`, of size 0, and then the free blocks. */
  predicate ListOk(base: nat, free: seq<Blk>) {
    && free != [] && free[0] == Blk(base, 0) && Sorted(free)
    && forall i :: 0 < i < |free| ==> free[i].n > 0
  }

  /** b belongs between free[k] and its successor. */
  predicate Fits(free: seq<Blk>, k: nat, b: Blk) {
    && k < |free| && free[k].a + free[k].n <= b.a && free[k].a < b.a
    && (k + 1 < |free| ==> b.a + b.n <= free[k + 1].a)
  }

  /** Blocks after free[k] once b has swallowed a successor that it touches. */
  function Rest(free: seq<Blk>, k: nat, b: Blk): seq<Blk>
    requires k < |free|
  {
    if k + 1 < |free| && b.a + b.n == free[k + 1].a then free[k + 2..] else free[k + 1..]
  }

  function JoinRight(free: seq<Blk>, k: nat, b: Blk): Blk
    requires k < |free|
  {
    if k + 1 < |free| && b.a + b.n == free[k + 1].a then Blk(b.a, b.n + free[k + 1].n) else b
  }

  /** free: b enters after free[k] and is joined with the neighbours it touches. */
  function Insert(free: seq<Blk>, k: nat, b: Blk): seq<Blk>
    requires k < |free|
  {
    var c := JoinRight(free, k, b);
    if free[k].a + free[k].n == b.a
    then free[..k] + [Blk(free[k].a, free[k].n + c.n)] + Rest(free, k, b)
    else free[..k + 1] + [c] + Rest(free, k, b)
  }

  predicate Left(free: seq<Blk>, k: nat, b: Blk)
    requires k < |free|
  {
    free[k].a + free[k].n == b.a
  }

  predicate Right(free: seq<Blk>, k: nat, b: Blk) {
    k + 1 < |free| && b.a + b.n == free[k + 1].a
  }

  /** Index in the new list of the block that now holds b. */
  function Slot(free: seq<Blk>, k: nat, b: Blk): nat
    requires k < |free|
  {
    if Left(free, k, b) then k else k + 1
  }

  /** Index in the old list of the block at index j of the new one, which is not the slot of b. */
  function Source(free: seq<Blk>, k: nat, b: Blk, j: nat): int
    requires k < |free|
  {
    if j < Slot(free, k, b) then j
    else j - (if Left(free, k, b) then 0 else 1) + (if Right(free, k, b) then 1 else 0)
  }

  lemma InsertAt(free: seq<Blk>, k: nat, b: Blk, j: nat)
    requires Fits(free, k, b) && j < |Insert(free, k, b)|
    ensures Slot(free, k, b) < |Insert(free, k, b)|
    ensures j != Slot(free, k, b) ==>
      && 0 <= Source(free, k, b, j) < |free| && Insert(free, k, b)[j] == free[Source(free, k, b, j)]
      && (j < Slot(free, k, b) ==> j <= k) && (j > Slot(free, k, b) ==> Source(free, k, b, j) > k)
      && (j > Slot(free, k, b) && Right(free, k, b) ==> Source(free, k, b, j) > k + 1)
  {
  }

  lemma InsertSlot(free: seq<Blk>, k: nat, b: Blk)
    requires Fits(free, k, b)
    ensures Slot(free, k, b) < |Insert(free, k, b)|
    ensures var m := Insert(free, k, b)[Slot(free, k, b)];
            && m.a == (if Left(free, k, b) then free[k].a else b.a)
            && m.a + m.n == (if Right(free, k, b) then free[k + 1].a + free[k + 1].n else b.a + b.n)
  {
  }

  lemma InsertListOk(base: nat, free: seq<Blk>, k: nat, b: Blk)
    requires ListOk(base, free) && Fits(free, k, b) && b.n > 0
    ensures ListOk(base, Insert(free, k, b))
  {
    var r := Insert(free, k, b);
    var at := Slot(free, k, b);
    InsertSlot(free, k, b);
    forall i: nat, j: nat | i < j < |r| ensures Before(r, i, j) {
      InsertAt(free, k, b, i);
      InsertAt(free, k, b, j);
      if i == at {
        var to := Source(free, k, b, j);
        assert Right(free, k, b) ==> Before(free, k + 1, to);
        assert k + 1 < |free| && k + 1 < to ==> Before(free, k + 1, to);
      } else if j == at {
        assert i < k ==> Before(free, i, k);
      } else {
        assert Before(free, Source(free, k, b, i), Source(free, k, b, j));
      }
    }
    forall i | 0 < i < |r| ensures r[i].n > 0 {
      InsertAt(free, k, b, i);
    }
    assert k > 0 ==> Before(free, 0, k);
    InsertAt(free, k, b, 0);
  }

  /** The units of the list are the old ones and those of b. */
  lemma InsertUnits(base: nat, free: seq<Blk>, k: nat, b: Blk, u: nat)
    requires ListOk(base, free) && Fits(free, k, b) && b.n > 0
    ensures InFree(Insert(free, k, b), u) <==> InFree(free, u) || Covers(b, u)
  {
    var r := Insert(free, k, b);
    var at := Slot(free, k, b);
    InsertSlot(free, k, b);
    if Covers(r[at], u) {
      assert Covers(b, u) || (Left(free, k, b) && Covers(free[k], u)) || (Right(free, k, b) && Covers(free[k + 1], u));
    } else if InFree(r, u) {
      var j :| 0 <= j < |r| && Covers(r[j], u);
      InsertAt(free, k, b, j);
    }
    if InFree(free, u) {
      var i :| 0 <= i < |free| && Covers(free[i], u);
      InsertKeeps(free, k, b, i, u);
    }
  }

  lemma InsertKeeps(free: seq<Blk>, k: nat, b: Blk, i: nat, u: nat)
    requires Fits(free, k, b) && i < |free| && Covers(free[i], u)
    ensures InFree(Insert(free, k, b), u)
  {
    var r := Insert(free, k, b);
    InsertSlot(free, k, b);
    if (i == k && Left(free, k, b)) || (i == k + 1 && Right(free, k, b)) {
      assert Covers(r[Slot(free, k, b)], u);
    } else {
      var j := if i <= k then i
               else i + (if Left(free, k, b) then 0 else 1) - (if Right(free, k, b) then 1 else 0);
      assert j < |r| && r[j] == free[i];
    }
  }

  /** malloc from free[i], which is large enough: all of it, or its tail. */
  function Take(free: seq<Blk>, i: nat, nu: nat): seq<Blk>
    requires i < |free| && nu <= free[i].n
  {
    if free[i].n == nu then free[..i] + free[i + 1..] else free[i := Blk(free[i].a, free[i].n - nu)]
  }

  function Taken(free: seq<Blk>, i: nat, nu: nat): Blk
    requires i < |free| && nu <= free[i].n
  {
    Blk(free[i].a + free[i].n - nu, nu)
  }

  lemma TakeListOk(base: nat, free: seq<Blk>, i: nat, nu: nat)
    requires ListOk(base, free) && i < |free| && 0 < nu <= free[i].n
    ensures i > 0 && ListOk(base, Take(free, i, nu))
  {
    var r := Take(free, i, nu);
    forall x: nat, y: nat | x < y < |r| ensures Before(r, x, y) {
      var exact := free[i].n == nu;
      var fx, fy := if exact && x >= i then x + 1 else x, if exact && y >= i then y + 1 else y;
      assert Before(free, fx, fy);
    }
  }

  lemma TakeUnits(base: nat, free: seq<Blk>, i: nat, nu: nat, u: nat)
    requires ListOk(base, free) && i < |free| && 0 < nu <= free[i].n
    ensures InFree(Take(free, i, nu), u) <==> InFree(free, u) && !Covers(Taken(free, i, nu), u)
    ensures Covers(Taken(free, i, nu), u) ==> InFree(free, u)
  {
    var r := Take(free, i, nu);
    var exact := free[i].n == nu;
    if InFree(free, u) && !Covers(Taken(free, i, nu), u) {
      var j :| 0 <= j < |free| && Covers(free[j], u);
      assert Covers(r[if exact && j > i then j - 1 else j], u);
    }
    if InFree(r, u) {
      var j :| 0 <= j < |r| && Covers(r[j], u);
      var at := if exact && j >= i then j + 1 else j;
      assert Covers(free[at], u);
      assert at < i ==> Before(free, at, i);
      assert i < at ==> Before(free, i, at);
    }
    if Covers(Taken(free, i, nu), u) {
      assert Covers(free[i], u);
    }
  }

  /** Total size of the blocks. */
  function Sum(free: seq<Blk>): nat {
    if free == [] then 0 else free[0].n + Sum(free[1..])
  }

  ghost function UnitsOf(b: Blk): set<nat> {
    set u | b.a <= u < b.a + b.n && Covers(b, u)
  }

  lemma {:induction false} UnitsOfCard(b: Blk)
    ensures |UnitsOf(b)| == b.n
    decreases b.n
  {
    if b.n > 0 {
      var c, last := Blk(b.a, b.n - 1), b.a + b.n - 1;
      UnitsOfCard(c);
      forall u: nat ensures u in UnitsOf(b) <==> u in UnitsOf(c) || u == last {}
      assert UnitsOf(b) == UnitsOf(c) + {last} && last !in UnitsOf(c);
    } else {
      assert UnitsOf(b) == {};
    }
  }

  ghost function FreeUnits(free: seq<Blk>): set<nat> {
    if free == [] then {} else UnitsOf(free[0]) + FreeUnits(free[1..])
  }

  lemma {:induction false} FreeUnitsAre(free: seq<Blk>, u: nat)
    ensures u in FreeUnits(free) <==> InFree(free, u)
  {
    if free != [] {
      FreeUnitsAre(free[1..], u);
      if InFree(free[1..], u) {
        var i :| 0 <= i < |free| - 1 && Covers(free[1..][i], u);
        assert Covers(free[i + 1], u);
      }
      if InFree(free, u) {
        var i :| 0 <= i < |free| && Covers(free[i], u);
        assert i > 0 ==> Covers(free[1..][i - 1], u);
      }
    }
  }

  /** In an ordered list the number of units is the sum of the sizes. */
  lemma {:induction false} FreeUnitsCard(free: seq<Blk>)
    requires Sorted(free)
    ensures |FreeUnits(free)| == Sum(free)
  {
    if free != [] {
      forall i: nat, j: nat | i < j < |free| - 1 ensures Before(free[1..], i, j) {
        assert Before(free, i + 1, j + 1);
      }
      FreeUnitsCard(free[1..]);
      UnitsOfCard(free[0]);
      forall u | u in UnitsOf(free[0]) ensures u !in FreeUnits(free[1..]) {
        FreeUnitsAre(free[1..], u);
        forall i: nat | i < |free| - 1 ensures !Covers(free[1..][i], u) {
          assert Before(free, 0, i + 1);
        }
      }
    }
  }

  // ------------------------------------------------- going round the list

  /** x taken round a list of n blocks. */
  function Wrap(x: nat, n: nat): nat {
    if x < n then x else x - n
  }

  function NextA(free: seq<Blk>, i: nat): nat
    requires i < |free|
  {
    free[Wrap(i + 1, |free|)].a
  }

  /** Steps from i round to k. */
  function Distance(i: nat, k: nat, n: nat): nat
    requires i < n && k < n
  {
    if i <= k then k - i else k + n - i
  }

  lemma DistanceStep(i: nat, k: nat, n: nat)
    requires i < n && k < n && i != k
    ensures Wrap(i + 1, n) < n && Distance(Wrap(i + 1, n), k, n) + 1 == Distance(i, k, n)
  {
  }

  /** The d-th block after free[f] is too small for nu units. */
  predicate SmallAt(free: seq<Blk>, f: nat, d: nat, nu: nat) {
    Wrap(f + d, |free|) < |free| && free[Wrap(f + d, |free|)].n < nu
  }

  /** malloc's search has passed c blocks after free[f], all too small. */
  predicate Passed(free: seq<Blk>, f: nat, c: nat, nu: nat) {
    f < |free| && c < |free| && forall d: nat :: 1 <= d <= c ==> SmallAt(free, f, d, nu)
  }

  predicate AllSmall(free: seq<Blk>, nu: nat) {
    forall i :: 0 <= i < |free| ==> free[i].n < nu
  }

  /** The search is back at free[f] exactly when every block has been looked at. */
  lemma PassedAll(base: nat, free: seq<Blk>, f: nat, c: nat, nu: nat)
    requires ListOk(base, free) && Passed(free, f, c, nu) && SmallAt(free, f, c + 1, nu)
    ensures free[Wrap(f + 1 + c, |free|)].a == free[f].a ==> AllSmall(free, nu)
    ensures free[Wrap(f + 1 + c, |free|)].a != free[f].a ==> Passed(free, f, c + 1, nu)
  {
    var n := |free|;
    if Wrap(f + 1 + c, n) != f {
      FreeAddressesDiffer(base, free, Wrap(f + 1 + c, n), f);
    } else {
      forall j | 0 <= j < n ensures free[j].n < nu {
        var d: nat := if j > f then j - f else j + n - f;
        assert SmallAt(free, f, d, nu) && Wrap(f + d, n) == j;
      }
    }
  }

  /** The memory holds the list: sizes in place and pointers in a cycle. */
  ghost predicate HoldsAt(ptr: map<nat, nat>, size: map<nat, nat>, free: seq<Blk>, i: nat) {
    i < |free| ==>
      && free[i].a in size && size[free[i].a] == free[i].n
      && free[i].a in ptr && ptr[free[i].a] == NextA(free, i)
  }

  ghost predicate Holds(ptr: map<nat, nat>, size: map<nat, nat>, free: seq<Blk>) {
    forall i: nat :: HoldsAt(ptr, size, free, i)
  }

  /** The test that stops the search loop of free: it stops exactly where b fits. */
  lemma StopsAt(base: nat, free: seq<Blk>, k: nat, b: Blk, i: nat)
    requires ListOk(base, free) && Fits(free, k, b) && b.n > 0 && i < |free|
    ensures var p, next := free[i].a, NextA(free, i);
            (p < b.a < next || (p >= next && (b.a > p || b.a < next))) <==> i == k
  {
    assert i + 1 < |free| ==> Before(free, i, i + 1);
    assert i != 0 ==> Before(free, 0, i);
    assert i + 1 < k ==> Before(free, i + 1, k);
    assert k + 1 < i ==> Before(free, k + 1, i);
    assert k != 0 ==> Before(free, 0, k);
  }

  /** Somewhere in the list b fits. */
  lemma {:induction false} FitsSomewhere(base: nat, free: seq<Blk>, b: Blk, k: nat) returns (at: nat)
    requires ListOk(base, free) && k < |free| && b.a > base && b.n > 0
    requires free[k].a < b.a
    requires forall i :: 0 < i < |free| ==> free[i].a + free[i].n <= b.a || b.a + b.n <= free[i].a
    ensures Fits(free, at, b)
    decreases |free| - k
  {
    if k + 1 < |free| && free[k + 1].a < b.a {
      at := FitsSomewhere(base, free, b, k + 1);
    } else {
      at := k;
    }
  }

  // ------------------------------------------------- the header updates of free

  /** Headers of memory: the pointer and the size fields. */
  datatype Mem = Mem(ptr: map<nat, nat>, size: map<nat, nat>)

  predicate HasHeader(m: Mem, a: nat) {
    a in m.ptr && a in m.size
  }

  /** Join bp with the block after p if they touch, and link it in front of what follows. */
  function LinkRight(m: Mem, p: nat, bp: nat): Mem
    requires HasHeader(m, p) && HasHeader(m, m.ptr[p]) && bp in m.size
  {
    var next := m.ptr[p];
    if bp + m.size[bp] == next
    then Mem(m.ptr[bp := m.ptr[next]], m.size[bp := m.size[bp] + m.size[next]])
    else Mem(m.ptr[bp := next], m.size)
  }

  /** Join p with bp if they touch, and link p to what follows. */
  function LinkLeft(m: Mem, p: nat, bp: nat): Mem
    requires HasHeader(m, p) && HasHeader(m, bp)
  {
    if p + m.size[p] == bp
    then Mem(m.ptr[p := m.ptr[bp]], m.size[p := m.size[p] + m.size[bp]])
    else Mem(m.ptr[p := bp], m.size)
  }

  function Link(m: Mem, p: nat, bp: nat): Mem
    requires HasHeader(m, p) && HasHeader(m, m.ptr[p]) && bp in m.size && bp != p
  {
    LinkLeft(LinkRight(m, p, bp), p, bp)
  }

  lemma InsertLength(free: seq<Blk>, k: nat, b: Blk)
    requires Fits(free, k, b)
    ensures |Insert(free, k, b)| == |free| + 1 - (if Left(free, k, b) then 1 else 0) - (if Right(free, k, b) then 1 else 0)
  {
  }

  /** Successors in the new list, in terms of the old one: of the block put in, */
  lemma InsertNextAt(base: nat, free: seq<Blk>, k: nat, b: Blk)
    requires ListOk(base, free) && Fits(free, k, b) && b.n > 0
    ensures Slot(free, k, b) < |Insert(free, k, b)|
    ensures NextA(Insert(free, k, b), Slot(free, k, b)) == NextA(free, if Right(free, k, b) then k + 1 else k)
  {
    var r, j := Insert(free, k, b), Slot(free, k, b);
    InsertLength(free, k, b);
    InsertListOk(base, free, k, b);
    InsertSlot(free, k, b);
    InsertAt(free, k, b, j);
    if j + 1 < |r| { InsertAt(free, k, b, j + 1); }
  }

  /** and of the others. */
  lemma InsertNextOther(base: nat, free: seq<Blk>, k: nat, b: Blk, j: nat)
    requires ListOk(base, free) && Fits(free, k, b) && b.n > 0 && j < |Insert(free, k, b)| && j != Slot(free, k, b)
    ensures var r := Insert(free, k, b);
            if j + 1 == Slot(free, k, b) then NextA(r, j) == (if Left(free, k, b) then free[k].a else b.a)
            else 0 <= Source(free, k, b, j) < |free| && NextA(r, j) == NextA(free, Source(free, k, b, j))
  {
    var r := Insert(free, k, b);
    InsertLength(free, k, b);
    InsertListOk(base, free, k, b);
    InsertSlot(free, k, b);
    InsertAt(free, k, b, j);
    if j + 1 < |r| { InsertAt(free, k, b, j + 1); }
  }

  lemma InsertNext(base: nat, free: seq<Blk>, k: nat, b: Blk, j: nat)
    requires ListOk(base, free) && Fits(free, k, b) && b.n > 0 && j < |Insert(free, k, b)|
    ensures var r := Insert(free, k, b);
            var at := Slot(free, k, b);
            if j == at then NextA(r, j) == NextA(free, if Right(free, k, b) then k + 1 else k)
            else if j + 1 == at then NextA(r, j) == (if Left(free, k, b) then free[k].a else b.a)
            else 0 <= Source(free, k, b, j) < |free| && NextA(r, j) == NextA(free, Source(free, k, b, j))
  {
    if j == Slot(free, k, b) { InsertNextAt(base, free, k, b); } else { InsertNextOther(base, free, k, b, j); }
  }

  lemma FreeAddressesDiffer(base: nat, free: seq<Blk>, i: nat, j: nat)
    requires ListOk(base, free) && i < |free| && j < |free| && i != j
    ensures free[i].a != free[j].a
  {
    assert i < j ==> Before(free, i, j);
    assert j < i ==> Before(free, j, i);
  }

  lemma FitsApart(base: nat, free: seq<Blk>, k: nat, b: Blk, i: nat)
    requires ListOk(base, free) && Fits(free, k, b) && b.n > 0 && i < |free|
    ensures free[i].a != b.a
  {
    assert i < k ==> Before(free, i, k);
    assert k + 1 < i ==> Before(free, k + 1, i);
  }

  /** After the header updates memory holds the new list. */
  lemma LinkHolds(base: nat, m: Mem, free: seq<Blk>, k: nat, b: Blk)
    requires ListOk(base, free) && Fits(free, k, b) && b.n > 0
    requires Holds(m.ptr, m.size, free) && b.a in m.size && m.size[b.a] == b.n
    ensures HasHeader(m, free[k].a) && HasHeader(m, m.ptr[free[k].a]) && b.a != free[k].a
    ensures var l := Link(m, free[k].a, b.a);
            Holds(l.ptr, l.size, Insert(free, k, b))
  {
    var p := free[k].a;
    assert HoldsAt(m.ptr, m.size, free, k) && HoldsAt(m.ptr, m.size, free, Wrap(k + 1, |free|));
    FitsApart(base, free, k, b, k);
    var l := Link(m, p, b.a);
    var r := Insert(free, k, b);
    InsertSlot(free, k, b);
    assert k != 0 ==> Before(free, 0, k);
    forall j: nat ensures HoldsAt(l.ptr, l.size, r, j) {
      if j < |r| {
        InsertAt(free, k, b, j);
        InsertNext(base, free, k, b, j);
        var i := Source(free, k, b, j);
        if j != Slot(free, k, b) {
          assert HoldsAt(m.ptr, m.size, free, i);
          FitsApart(base, free, k, b, i);
          if i != k { FreeAddressesDiffer(base, free, i, k); }
        }
      }
    }
  }

  // ------------------------------------------------- the header updates of malloc

  /** Unlink p, whose predecessor is prev, or cut nu units off its end. */
  function Carve(m: Mem, prev: nat, p: nat, nu: nat): Mem
    requires HasHeader(m, p) && nu <= m.size[p]
  {
    if m.size[p] == nu then Mem(m.ptr[prev := m.ptr[p]], m.size)
    else Mem(m.ptr, m.size[p := m.size[p] - nu][p + m.size[p] - nu := nu])
  }

  lemma CarveHolds(base: nat, m: Mem, free: seq<Blk>, i: nat, nu: nat)
    requires ListOk(base, free) && 0 < i < |free| && 0 < nu <= free[i].n && Holds(m.ptr, m.size, free)
    ensures HasHeader(m, free[i].a) && m.size[free[i].a] == free[i].n
    ensures var l := Carve(m, free[i - 1].a, free[i].a, nu);
            && Holds(l.ptr, l.size, Take(free, i, nu))
            && Taken(free, i, nu).a in l.size && l.size[Taken(free, i, nu).a] == nu
  {
    var r := Take(free, i, nu);
    assert HoldsAt(m.ptr, m.size, free, i) && HoldsAt(m.ptr, m.size, free, i - 1);
    var l := Carve(m, free[i - 1].a, free[i].a, nu);
    forall j: nat ensures HoldsAt(l.ptr, l.size, r, j) {
      if j < |r| {
        var s := if free[i].n == nu && j >= i then j + 1 else j;
        assert HoldsAt(m.ptr, m.size, free, s);
        if s != i { FreeAddressesDiffer(base, free, s, i); }
        if s != i - 1 { FreeAddressesDiffer(base, free, s, i - 1); }
        assert s < i ==> Before(free, s, i);
        assert i < s ==> Before(free, i, s);
      }
    }
  }
}

/**
 malloc, free and morecore of user/umalloc.c over a heap that sbrk extends.  The
 ghost fields record the list, the blocks the program holds and the units that
 sbrk gave; `Valid` ties them to the headers in memory.
 */
module Umalloc {
  import opened FreeList

  const MINUNITS: nat := 4096
  const HEADER: nat := 16

  /** The argument of sbrk is an int. */
  function ToInt(x: nat): int {
    var y := x % 0x1_0000_0000;
    if y < 0x8000_0000 then y else y - 0x1_0000_0000
  }

  function UnitsFor(nbytes: nat): (nu: nat)
    ensures nu >= 1 && (nu - 1) * HEADER >= nbytes && (nu - 1) * 16 < nbytes + 16
  {
    (nbytes + HEADER - 1) / HEADER + 1
  }

  predicate InLive(live: map<nat, nat>, u: nat) {
    exists b :: b in live && Covers(Blk(b, live[b]), u)
  }

  lemma CoveredIsFree(free: seq<Blk>, i: nat, u: nat)
    requires i < |free|
    ensures Covers(free[i], u) ==> InFree(free, u)
  {
  }

  lemma CoveredIsLive(live: map<nat, nat>, b: nat, u: nat)
    requires b in live
    ensures Covers(Blk(b, live[b]), u) ==> InLive(live, u)
  {
  }

  ghost predicate Apart(live: map<nat, nat>, b: nat, c: nat) {
    b in live && c in live && b < c ==> b + live[b] <= c
  }

  /** Taking one block out of the live ones takes exactly its units out. */
  lemma LiveSplit(live: map<nat, nat>, bp: nat, u: nat)
    requires bp in live && forall b, c :: Apart(live, b, c)
    ensures InLive(live, u) <==> InLive(live - {bp}, u) || Covers(Blk(bp, live[bp]), u)
    ensures !(InLive(live - {bp}, u) && Covers(Blk(bp, live[bp]), u))
  {
    var less := live - {bp};
    if InLive(less, u) {
      var c :| c in less && Covers(Blk(c, less[c]), u);
      assert Apart(live, c, bp) && Apart(live, bp, c);
      assert Covers(Blk(c, live[c]), u);
    }
    if InLive(live, u) {
      var c :| c in live && Covers(Blk(c, live[c]), u);
      assert c != bp ==> c in less && Covers(Blk(c, less[c]), u);
    }
  }

  lemma AdoptApart(live: map<nat, nat>, hp: nat, nu: nat, c: nat, d: nat)
    requires forall b, c :: Apart(live, b, c)
    requires forall b :: b in live ==> b + live[b] <= hp
    ensures Apart(live[hp := nu], c, d)
  {
    assert Apart(live, c, d);
  }

  lemma AdoptUnits(live: map<nat, nat>, hp: nat, nu: nat, u: nat)
    requires hp !in live
    ensures InLive(live[hp := nu], u) <==> InLive(live, u) || Covers(Blk(hp, nu), u)
  {
    var more := live[hp := nu];
    if InLive(live, u) {
      var c :| c in live && Covers(Blk(c, live[c]), u);
      assert Covers(Blk(c, more[c]), u);
    }
    if Covers(Blk(hp, nu), u) {
      assert Covers(Blk(hp, more[hp]), u);
    }
  }

  /** The units that morecore adds at a for a request of nu. */
  ghost function CoreUnits(a: nat, nu: nat): (r: set<nat>)
    ensures forall u: nat :: u in r <==> a <= u && (u < a + 4096 || u < a + nu)
  {
    UnitsOf(Blk(a, if nu < MINUNITS then MINUNITS else nu))
  }

  /** What morecore did; Short when sbrk was asked for something else than what is recorded. */
  datatype Core = Grown | NoCore | Short(at: nat, end: int)

  /** What malloc returns.  Broken: the header at unit `at` records the block asked for, but
      memory ends at `end`. */
  datatype Result = Block(bp: nat) | NoMemory | Broken(at: nat, end: int)

  class Heap {
    const base: nat
    var started: bool               // freep is not null
    var freep: nat
    var ptr: map<nat, nat>
    var size: map<nat, nat>
    var brk: nat                    // first unit above the program
    ghost var free: seq<Blk>
    ghost var live: map<nat, nat>
    ghost var owned: set<nat>

    ghost predicate LiveOk(b: nat)
      reads this
    {
      b in live ==> base < b && live[b] > 0 && b in size && size[b] == live[b]
    }

    /** A unit from sbrk is in one free block or in one live block, and other units in none. */
    ghost predicate UnitOk(u: nat)
      reads this
    {
      && (u in owned <==> InFree(free, u) || InLive(live, u))
      && !(InFree(free, u) && InLive(live, u))
      && (u in owned ==> base < u < brk)
    }

    ghost predicate OnList(a: nat)
      reads this
    {
      exists i :: 0 <= i < |free| && free[i].a == a
    }

    ghost predicate Valid()
      reads this
    {
      && ListOk(base, free) && base < brk
      && (forall b :: LiveOk(b))
      && (forall b, c :: Apart(live, b, c))
      && (forall u :: UnitOk(u))
      && (started ==> Holds(ptr, size, free) && OnList(freep))
      && (!started ==> free == [Blk(base, 0)])
    }

    constructor (base: nat, brk: nat)
      requires base < brk
      ensures Valid() && live == map[] && owned == {} && free == [Blk(base, 0)] && !started
    {
      this.base, this.brk := base, brk;
      started, freep, ptr, size := false, 0, map[], map[];
      free, live, owned := [Blk(base, 0)], map[], {};
    }

    /** A live block is clear of every free block. */
    lemma LiveClear(b: nat, i: nat)
      requires Valid() && b in live && 0 < i < |free|
      ensures free[i].a + free[i].n <= b || b + live[b] <= free[i].a
    {
      assert LiveOk(b) && UnitOk(b) && UnitOk(free[i].a);
      assert Covers(Blk(b, live[b]), b) && Covers(free[i], free[i].a);
      CoveredIsFree(free, i, b);
      CoveredIsLive(live, b, free[i].a);
    }

    lemma FitsInList(b: nat) returns (k: nat)
      requires Valid() && b in live
      ensures Fits(free, k, Blk(b, live[b]))
    {
      assert LiveOk(b);
      forall i | 0 < i < |free| ensures free[i].a + free[i].n <= b || b + live[b] <= free[i].a {
        LiveClear(b, i);
      }
      k := FitsSomewhere(base, free, Blk(b, live[b]), 0);
    }

    /** Give the live block at bp back. */
    method Free(bp: nat)
      requires Valid() && started && bp in live
      modifies this
      ensures Valid() && started && live == old(live) - {bp} && owned == old(owned) && brk == old(brk)
      ensures exists i :: 0 <= i < |free| && free[i].n >= old(live)[bp]
    {
      ghost var b := Blk(bp, live[bp]);
      ghost var k := FitsInList(bp);
      assert LiveOk(bp);
      var p := freep;
      ghost var i: nat :| i < |free| && free[i].a == freep;
      assert HoldsAt(ptr, size, free, i);
      while !(bp > p && bp < ptr[p])
        invariant i < |free| && p == free[i].a && p in ptr
        modifies {}
        decreases Distance(i, k, |free|)
      {
        StopsAt(base, free, k, b, i);
        assert HoldsAt(ptr, size, free, i);
        if p >= ptr[p] && (bp > p || bp < ptr[p]) {
          break;
        }
        DistanceStep(i, k, |free|);
        p := ptr[p];
        i := Wrap(i + 1, |free|);
        assert HoldsAt(ptr, size, free, i);
      }
      StopsAt(base, free, k, b, i);
      assert HoldsAt(ptr, size, free, i);
      LinkIn(k, p, bp);
    }

    /** The header updates after the search of free. */
    method LinkHeaders(p: nat, bp: nat)
      requires HasHeader(Mem(ptr, size), p) && HasHeader(Mem(ptr, size), ptr[p]) && bp in size && bp != p
      modifies this`ptr, this`size, this`freep
      ensures Mem(ptr, size) == Link(old(Mem(ptr, size)), p, bp) && freep == p
    {
      var next := ptr[p];
      if bp + size[bp] == next {
        size := size[bp := size[bp] + size[next]];
        ptr := ptr[bp := ptr[next]];
      } else {
        ptr := ptr[bp := next];
      }
      if p + size[p] == bp {
        size := size[p := size[p] + size[bp]];
        ptr := ptr[p := ptr[bp]];
      } else {
        ptr := ptr[p := bp];
      }
      freep := p;
    }

    /** bp goes into the list after p, which is free[k]. */
    method LinkIn(ghost k: nat, p: nat, bp: nat)
      requires Valid() && started && bp in live && Fits(free, k, Blk(bp, live[bp])) && p == free[k].a
      modifies this
      ensures Valid() && started && live == old(live) - {bp} && owned == old(owned) && brk == old(brk)
      ensures exists i :: 0 <= i < |free| && free[i].n >= old(live)[bp]
    {
      ghost var b := Blk(bp, live[bp]);
      assert LiveOk(bp);
      LinkHolds(base, Mem(ptr, size), free, k, b);
      forall c | c in live ensures c != p {
        assert LiveOk(c);
        if k > 0 { LiveClear(c, k); }
      }
      LinkHeaders(p, bp);
      InsertListOk(base, free, k, b);
      InsertSlot(free, k, b);
      free := Insert(free, k, b);
      live := live - {bp};
      assert free[Slot(old(free), k, b)].n >= b.n;
      forall c ensures LiveOk(c) {
        assert old(LiveOk(c));
      }
      forall c, d ensures Apart(live, c, d) {
        assert Apart(old(live), c, d);
      }
      forall u ensures UnitOk(u) {
        assert old(UnitOk(u));
        InsertUnits(base, old(free), k, b, u);
        LiveSplit(old(live), bp, u);
      }
      InsertAt(old(free), k, b, k);
      assert free[k].a == p;
    }

    /** sbrk gave the nu units at hp: they become one live block. */
    method Adopt(hp: nat, nu: nat)
      requires Valid() && started && hp >= brk && nu > 0
      modifies this
      ensures Valid() && started && live == old(live)[hp := nu] && hp !in old(live) && brk == hp + nu
      ensures owned == old(owned) + UnitsOf(Blk(hp, nu))
      ensures free == old(free) && freep == old(freep)
    {
      forall c | c in live ensures c + live[c] <= brk {
        var last := c + live[c] - 1;
        assert LiveOk(c);
        assert Covers(Blk(c, live[c]), last);
        CoveredIsLive(live, c, last);
        assert UnitOk(last);
      }
      assert hp in live ==> LiveOk(hp);
      forall i: nat | i < |free| ensures free[i].a < hp {
        if i > 0 {
          assert Covers(free[i], free[i].a);
          CoveredIsFree(free, i, free[i].a);
          assert UnitOk(free[i].a);
        }
      }
      size := size[hp := nu];
      live := live[hp := nu];
      owned := owned + UnitsOf(Blk(hp, nu));
      brk := hp + nu;
      forall c ensures LiveOk(c) {
        assert old(LiveOk(c));
      }
      forall c, d ensures Apart(live, c, d) {
        AdoptApart(old(live), hp, nu, c, d);
      }
      forall u ensures UnitOk(u) {
        assert old(UnitOk(u));
        AdoptUnits(old(live), hp, nu, u);
      }
      forall i: nat ensures HoldsAt(ptr, size, free, i) {
        assert HoldsAt(old(ptr), old(size), free, i);
      }
    }

    /** The header at `at` records nu units, more than there are up to the end of memory,
        which sbrk has set as its int argument says. */
    ghost predicate Overstated(at: nat, end: int, nu: nat)
      reads this`size
    {
      at in size && size[at] == nu && end < at + nu && (end - at) * HEADER == ToInt(nu * HEADER)
    }

    /** morecore: ask sbrk for at least MINUNITS units and put them on the list.  The
        environment says whether sbrk succeeds and how far the break had been moved by others. */
    method Morecore(nu0: nat, granted: bool, gap: nat) returns (r: Core)
      requires Valid() && started && nu0 > 0
      modifies this
      ensures r == NoCore <==> !granted
      ensures r.Short? <==> granted && nu0 >= 0x800_0000
      ensures r.Short? ==> Overstated(r.at, r.end, nu0)
      ensures !r.Short? ==> Valid() && started && live == old(live)
      ensures r == NoCore ==> owned == old(owned) && free == old(free) && freep == old(freep)
      ensures r == Grown ==> exists i :: 0 <= i < |free| && free[i].n >= nu0
      ensures r == Grown ==> owned == old(owned) + CoreUnits(old(brk) + gap, nu0)
    {
      var nu := nu0;
      if nu < MINUNITS {
        nu := MINUNITS;
      }
      if !granted {
        return NoCore;
      }
      var bytes := ToInt(nu * HEADER);
      var hp := brk + gap;
      if bytes != nu * HEADER {
        size := size[hp := nu];
        return Short(hp, hp + bytes / HEADER);
      }
      Adopt(hp, nu);
      Free(hp);
      assert live == old(live);
      r := Grown;
    }

    /** The header updates of malloc when the block at p is large enough. */
    method CarveHeaders(prevp: nat, p: nat, nunits: nat) returns (bp: nat)
      requires HasHeader(Mem(ptr, size), p) && nunits <= size[p]
      modifies this`ptr, this`size, this`freep
      ensures Mem(ptr, size) == Carve(old(Mem(ptr, size)), prevp, p, nunits)
      ensures bp == p + old(size)[p] - nunits && freep == prevp
    {
      bp := p;
      if size[p] == nunits {
        ptr := ptr[prevp := ptr[p]];
      } else {
        size := size[p := size[p] - nunits];
        bp := p + size[p];
        size := size[bp := nunits];
      }
      freep := prevp;
    }

    /** Cut nunits off free[i], whose header is at p and whose predecessor is prevp. */
    method Allocate(ghost i: nat, prevp: nat, p: nat, nunits: nat) returns (bp: nat)
      requires Valid() && started && 0 < i < |free| && 0 < nunits <= free[i].n
      requires p == free[i].a && prevp == free[i - 1].a
      modifies this
      ensures Valid() && started && owned == old(owned) && brk == old(brk)
      ensures bp !in old(live) && live == old(live)[bp := nunits]
      ensures forall u :: Covers(Blk(bp, nunits), u) ==> InFree(old(free), u)
    {
      CarveHolds(base, Mem(ptr, size), free, i, nunits);
      TakeListOk(base, free, i, nunits);
      forall c | c in live
        ensures c != p && (free[i].a + free[i].n <= c || c + live[c] <= free[i].a) && live[c] > 0
      {
        assert LiveOk(c);
        LiveClear(c, i);
      }
      bp := CarveHeaders(prevp, p, nunits);
      assert Before(free, 0, i);
      free := Take(free, i, nunits);
      live := live[bp := nunits];
      assert free[i - 1].a == prevp;
      forall c ensures LiveOk(c) {
        assert old(LiveOk(c));
      }
      forall c, d ensures Apart(live, c, d) {
        assert Apart(old(live), c, d);
      }
      forall u ensures UnitOk(u) && (Covers(Blk(bp, nunits), u) ==> InFree(old(free), u)) {
        assert old(UnitOk(u));
        TakeUnits(base, old(free), i, nunits, u);
        AdoptUnits(old(live), bp, nunits, u);
      }
    }

    /** The first call of malloc: `base` alone, in a cycle. */
    method Start()
      requires Valid() && !started
      modifies this
      ensures Valid() && started && live == old(live) && owned == old(owned) && free == old(free) && brk == old(brk)
    {
      ptr := ptr[base := base];
      size := size[base := 0];
      freep, started := base, true;
      assert free[0].a == base;
      forall c ensures LiveOk(c) {
        assert old(LiveOk(c));
      }
      forall u ensures UnitOk(u) {
        assert old(UnitOk(u));
      }
    }

    /** Where malloc's loop is: prevp and p are neighbours, and the blocks passed are too small. */
    ghost predicate At(f: nat, c: nat, prevp: nat, p: nat, nu: nat)
      reads this
    {
      && Passed(free, f, c, nu) && free[f].a == freep
      && prevp == free[Wrap(f + c, |free|)].a && p == free[Wrap(f + 1 + c, |free|)].a
    }

    lemma AtHead(f: nat, c: nat, prevp: nat, p: nat, nu: nat)
      requires Valid() && started && At(f, c, prevp, p, nu) && nu > 0
      ensures p in size && p in ptr && size[p] == free[Wrap(f + 1 + c, |free|)].n
      ensures size[p] < nu <==> SmallAt(free, f, c + 1, nu)
      ensures ptr[p] == free[Wrap(Wrap(f + 1 + c, |free|) + 1, |free|)].a
      ensures size[p] >= nu ==> Wrap(f + 1 + c, |free|) > 0 && Wrap(f + c, |free|) == Wrap(f + 1 + c, |free|) - 1
    {
      assert HoldsAt(ptr, size, free, Wrap(f + 1 + c, |free|));
    }

    lemma Restart(nu: nat) returns (f: nat)
      requires Valid() && started
      ensures freep in ptr && At(f, 0, freep, ptr[freep], nu)
    {
      f :| f < |free| && free[f].a == freep;
      assert HoldsAt(ptr, size, free, f);
    }

    /** More memory from sbrk; the search starts again at freep, where f is. */
    method Refill(nu: nat, granted: bool, gap: nat) returns (core: Core, ghost f: nat)
      requires Valid() && started && nu > 0
      modifies this
      ensures (core == NoCore <==> !granted) && (core.Short? <==> granted && nu >= 0x800_0000)
      ensures core.Short? ==> Overstated(core.at, core.end, nu)
      ensures core == NoCore ==> Valid() && started && live == old(live) && owned == old(owned)
      ensures core == Grown ==> Valid() && started && live == old(live) && owned == old(owned) + CoreUnits(old(brk) + gap, nu)
      ensures core == Grown ==> !AllSmall(free, nu) && freep in ptr && At(f, 0, freep, ptr[freep], nu)
    {
      core := Morecore(nu, granted, gap);
      f := 0;
      if core == Grown { f := Restart(nu); }
    }

    /** nbytes rounded up to units, from the first block after freep that is large enough. */
    method Malloc(nbytes: nat, granted: bool, gap: nat) returns (r: Result)
      requires Valid()
      modifies this
      ensures r.Broken? <==> granted && UnitsFor(nbytes) >= 0x800_0000 && AllSmall(old(free), UnitsFor(nbytes))
      ensures r.Broken? ==> Overstated(r.at, r.end, UnitsFor(nbytes))
      ensures !r.Broken? ==> Valid() && started && old(owned) <= owned
      ensures r == NoMemory <==> !granted && AllSmall(old(free), UnitsFor(nbytes))
      ensures r == NoMemory ==> live == old(live) && owned == old(owned)
      ensures !r.Block? ==> AllSmall(old(free), UnitsFor(nbytes))
      ensures r.Block? ==> r.bp !in old(live) && live == old(live)[r.bp := UnitsFor(nbytes)]
      ensures r.Block? ==> owned == if AllSmall(old(free), UnitsFor(nbytes)) then old(owned) + CoreUnits(old(brk) + gap, UnitsFor(nbytes)) else old(owned)
    {
      var nunits := UnitsFor(nbytes);
      if !started {
        Start();
      }
      var prevp := freep;
      ghost var f: nat := Restart(nunits);
      ghost var c: nat := 0;
      ghost var grown := false;
      var p := ptr[prevp];
      while true
        invariant Valid() && started && live == old(live) && old(owned) <= owned
        invariant At(f, c, prevp, p, nunits)
        invariant if grown then
                    && granted && nunits < 0x800_0000 && !AllSmall(free, nunits) && AllSmall(old(free), nunits)
                    && owned == old(owned) + CoreUnits(old(brk) + gap, nunits)
                  else free == old(free) && owned == old(owned) && brk == old(brk)
        decreases if grown then 0 else 1, |free| - c
      {
        AtHead(f, c, prevp, p, nunits);
        if size[p] >= nunits {
          var bp := Allocate(Wrap(f + 1 + c, |free|), prevp, p, nunits);
          return Block(bp);
        }
        PassedAll(base, free, f, c, nunits);
        if p == freep {
          var core;
          core, f := Refill(nunits, granted, gap);
          if core != Grown {
            return if core.Short? then Broken(core.at, core.end) else NoMemory;
          }
          prevp, p, c, grown := freep, ptr[freep], 0, true;
        } else {
          prevp, p, c := p, ptr[p], c + 1;
        }
      }
    }
  }

  // ------------------------------------------------- main results

  ghost function LiveUnits(live: map<nat, nat>): set<nat> {
    set b, u | b in live && b <= u < b + live[b] && Covers(Blk(b, live[b]), u) :: u
  }

  /** Units from sbrk are conserved: each is in one free or one live block. */
  lemma Conservation(h: Heap)
    requires h.Valid()
    ensures h.owned == FreeUnits(h.free) + LiveUnits(h.live)
    ensures |h.owned| == Sum(h.free) + |LiveUnits(h.live)|
  {
    forall u: nat
      ensures u in h.owned <==> u in FreeUnits(h.free) || u in LiveUnits(h.live)
      ensures !(u in FreeUnits(h.free) && u in LiveUnits(h.live))
    {
      assert h.UnitOk(u);
      FreeUnitsAre(h.free, u);
      assert InLive(h.live, u) <==> u in LiveUnits(h.live);
    }
    FreeUnitsCard(h.free);
    assert h.owned == FreeUnits(h.free) + LiveUnits(h.live);
    assert FreeUnits(h.free) !! LiveUnits(h.live);
  }

  /** sbrk is asked for what is recorded exactly below 2^27 units. */
  lemma AskedIsRecorded(nu: nat)
    ensures ToInt(nu * HEADER) == nu * HEADER <==> nu < 0x800_0000
  {
  }

  /** A first request of 2^32 - 16 bytes records 2^28 units where sbrk has added none. */
  method HugeRequestBreaks(base: nat, brk: nat) returns (h: Heap, r: Result)
    requires base < brk
    ensures r.Broken? && r.end == r.at && r.at in h.size && h.size[r.at] == 0x1000_0000
  {
    h := new Heap(base, brk);
    r := h.Malloc(0xFFFF_FFF0, true, 0);
  }

  /** Requests up to 2^31 - 32 bytes always keep the list and the accounts. */
  lemma SafeRequests(nbytes: nat)
    ensures UnitsFor(nbytes) < 0x800_0000 <==> nbytes <= 0x8000_0000 - 32
  {
  }
}
