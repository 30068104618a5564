/**
 Physical pages, their reference counts and the leaf page-table entries that
 name them (kernel/kalloc.c, and the entries kernel/vm.c writes).

 `Sys` is the part of the machine that the copy-on-write code works on: the free
 list, the count array, the bytes of every page, the user leaf entries of all
 processes, and the pages the kernel itself holds (page-table pages, trapframes,
 a page just allocated).  Each function below is one uninterrupted update; the
 lemma beside it says that the update keeps `Inv` and which pages it changes.
 */
module PhysicalPages {

  const PGSIZE: nat := 4096

  type Byte = bv8
  type Page = p: seq<Byte> | |p| == PGSIZE witness seq(PGSIZE, _ => 0)

  /** A valid user leaf entry: the page it names and the flags that matter here. */
  datatype Pte = Pte(frame: nat, r: bool, w: bool, x: bool, u: bool, cow: bool)

  /** A process slot and a virtual page number. */
  datatype Key = Key(pid: nat, vpn: nat)

  /** Who holds a kernel page: code in progress, or a process's tables and trapframe. */
  datatype Holder = Kernel | Process(pid: nat)

  datatype Sys = Sys(free: seq<nat>, cnt: seq<int>, mem: seq<Page>,
                     pt: map<Key, Pte>, owner: map<nat, Holder>)

  /** What a process can observe of one of its pages. */
  datatype PageView = PageView(bytes: Page, r: bool, w: bool, x: bool, u: bool)

  function Fill(b: Byte): Page {
    seq(PGSIZE, _ => b)
  }

  // ---------------------------------------------------------------- invariant

  ghost function Users(pt: map<Key, Pte>, f: nat): set<Key> {
    set k | k in pt && pt[k].frame == f
  }

  /** Number of references to page f: user leaf entries plus the kernel's own. */
  ghost function Refs(s: Sys, f: nat): nat {
    |Users(s.pt, f)| + if f in s.owner then 1 else 0
  }

  ghost predicate InRam(s: Sys) {
    && |s.cnt| == |s.mem|
    && (forall i :: 0 <= i < |s.free| ==> s.free[i] < |s.cnt|)
    && (forall k :: k in s.pt ==> s.pt[k].frame < |s.cnt|)
    && (forall f :: f in s.owner ==> f < |s.cnt|)
  }

  ghost predicate Distinct(q: seq<nat>) {
    forall i, j :: 0 <= i < j < |q| ==> q[i] != q[j]
  }

  /** The count of a referenced page is its number of references; the others are free. */
  ghost predicate CountedAt(s: Sys, f: nat)
    requires f < |s.cnt|
  {
    && (f in s.free <==> Refs(s, f) == 0)
    && (if Refs(s, f) > 0 then s.cnt[f] == Refs(s, f) else s.cnt[f] <= 0)
  }

  /** A page mapped writable has no other reference. */
  ghost predicate ExclusiveAt(s: Sys, k: Key) {
    k in s.pt && s.pt[k].w ==> !s.pt[k].cow && Refs(s, s.pt[k].frame) == 1
  }

  /** A page held by the kernel has no other reference. */
  ghost predicate HeldAt(s: Sys, f: nat) {
    f in s.owner ==> Refs(s, f) == 1
  }

  ghost predicate Inv(s: Sys) {
    && InRam(s)
    && Distinct(s.free)
    && (forall f: nat :: f < |s.cnt| ==> CountedAt(s, f))
    && (forall k :: ExclusiveAt(s, k))
    && (forall f :: HeldAt(s, f))
  }

  const NO_PAGE := PageView(Fill(0), false, false, false, false)

  ghost function Look(s: Sys, k: Key): PageView {
    if k in s.pt && s.pt[k].frame < |s.mem| then
      var e := s.pt[k];
      PageView(s.mem[e.frame], e.r, e.w || e.cow, e.x, e.u)
    else
      NO_PAGE
  }

  /** A page mapped in both states reads the same in both. */
  ghost predicate SameAt(s: Sys, t: Sys, k: Key) {
    k in s.pt && k in t.pt ==> Look(t, k) == Look(s, k)
  }

  ghost predicate SameLooks(s: Sys, t: Sys) {
    forall k :: SameAt(s, t, k)
  }

  lemma SameTrans(s: Sys, t: Sys, u: Sys)
    requires SameLooks(s, t) && SameLooks(t, u) && t.pt.Keys >= s.pt.Keys
    ensures SameLooks(s, u)
  {
    forall k ensures SameAt(s, u, k) {
      assert SameAt(s, t, k) && SameAt(t, u, k);
      assert k in s.pt ==> k in t.pt.Keys;
    }
  }

  lemma UsersPut(pt: map<Key, Pte>, k: Key, e: Pte, f: nat)
    ensures Users(pt[k := e], f) == if e.frame == f then Users(pt, f) + {k} else Users(pt, f) - {k}
  {
  }

  lemma UsersDel(pt: map<Key, Pte>, k: Key, f: nat)
    ensures Users(pt - {k}, f) == Users(pt, f) - {k}
  {
  }

  lemma UserCounts(s: Sys, k: Key)
    requires k in s.pt
    ensures k in Users(s.pt, s.pt[k].frame)
    ensures Refs(s, s.pt[k].frame) >= 1
  {
    assert k in Users(s.pt, s.pt[k].frame);
    assert Users(s.pt, s.pt[k].frame) != {};
  }

  /** Two entries never share a page that one of them may write. */
  lemma WritableIsAlone(s: Sys, k: Key, j: Key)
    requires Inv(s) && k in s.pt && j in s.pt && k != j && s.pt[k].w
    ensures s.pt[k].frame != s.pt[j].frame
  {
    assert ExclusiveAt(s, k);
    if s.pt[k].frame == s.pt[j].frame {
      var us := Users(s.pt, s.pt[k].frame);
      assert {k, j} <= us;
      SubsetCard({k, j}, us);
    }
  }

  lemma SubsetCard<T>(a: set<T>, b: set<T>)
    requires a <= b
    ensures |a| <= |b|
  {
    assert b == a + (b - a);
  }

  lemma OwnedIsUnmapped(s: Sys, f: nat, k: Key)
    requires Inv(s) && f in s.owner && k in s.pt
    ensures s.pt[k].frame != f
  {
    assert HeldAt(s, f);
    UserCounts(s, k);
  }

  // ---------------------------------------------------------------- counting pages

  ghost function Elems(q: seq<nat>): set<nat> {
    set x | x in q
  }

  lemma {:induction false} DistinctCard(q: seq<nat>)
    requires Distinct(q)
    ensures |Elems(q)| == |q|
    decreases |q|
  {
    if q != [] {
      var n := |q| - 1;
      DistinctCard(q[..n]);
      assert Elems(q) == Elems(q[..n]) + {q[n]};
    }
  }

  /** The pages that no process maps. */
  ghost function Unclaimed(s: Sys): set<nat> {
    set f: nat | f < |s.cnt| && Users(s.pt, f) == {}
  }

  lemma UnclaimedAt(s: Sys, f: nat)
    requires Inv(s)
    ensures f in Unclaimed(s) <==> f in s.free || f in s.owner
    ensures !(f in s.free && f in s.owner)
  {
    assert HeldAt(s, f);
    if f < |s.cnt| { assert CountedAt(s, f); }
  }

  /** They are free or held by the kernel. */
  lemma FreeAndOwned(s: Sys)
    requires Inv(s)
    ensures |s.free| + |s.owner.Keys| == |Unclaimed(s)|
  {
    var a, b := Elems(s.free), s.owner.Keys;
    DistinctCard(s.free);
    forall f: nat ensures (f in Unclaimed(s) <==> f in a + b) && !(f in a && f in b) { UnclaimedAt(s, f); }
    assert Unclaimed(s) == a + b && a !! b;
    assert |a + b| == |a| + |b|;
  }

  /** As long as the same pages are mapped, pages go between the free list and the kernel. */
  lemma FreeCount(s: Sys, t: Sys)
    requires Inv(s) && Inv(t) && |s.cnt| == |t.cnt| && s.pt.Keys == t.pt.Keys
    requires forall k :: k in s.pt ==> s.pt[k].frame == t.pt[k].frame
    ensures |t.free| + |t.owner.Keys| == |s.free| + |s.owner.Keys|
  {
    FreeAndOwned(s);
    FreeAndOwned(t);
    forall f: nat ensures Users(s.pt, f) == Users(t.pt, f) {
      forall k ensures k in Users(s.pt, f) <==> k in Users(t.pt, f) { assert k in s.pt <==> k in t.pt.Keys; }
    }
    assert Unclaimed(s) == Unclaimed(t);
  }

  // ---------------------------------------------------------------- allocator

  /** kalloc with a page available; the new page is held by the running kernel code. */
  function Take(s: Sys): Sys
    requires s.free != [] && s.free[0] < |s.cnt| == |s.mem|
  {
    var f := s.free[0];
    s.(free := s.free[1..], mem := s.mem[f := Fill(5)], cnt := s.cnt[f := 1],
       owner := s.owner[f := Kernel])
  }

  lemma TakeKeeps(s: Sys)
    requires Inv(s) && s.free != []
    ensures Inv(Take(s)) && SameLooks(s, Take(s))
    ensures s.free[0] !in s.owner
  {
    var f := s.free[0];
    var t := Take(s);
    assert CountedAt(s, f);
    forall g: nat | g < |t.cnt| ensures CountedAt(t, g) {
      assert CountedAt(s, g);
      assert g != f ==> (g in s.free <==> g in s.free[1..]);
    }
    forall k ensures ExclusiveAt(t, k) && (k in s.pt ==> s.pt[k].frame != f) {
      assert ExclusiveAt(s, k);
      if k in s.pt { UserCounts(s, k); }
    }
    forall g ensures HeldAt(t, g) {
      assert HeldAt(s, g);
    }
  }

  /** kfree: drop one reference, and put the page on the free list when none is left. */
  function Free(s: Sys, f: nat): Sys
    requires f < |s.cnt| == |s.mem|
  {
    var c := s.cnt[f] - 1;
    if c > 0 then s.(cnt := s.cnt[f := c])
    else s.(cnt := s.cnt[f := c], mem := s.mem[f := Fill(1)], free := [f] + s.free)
  }

  /** Dropping the reference of the entry at k and clearing it. */
  function Unmap(s: Sys, k: Key): Sys
    requires InRam(s) && k in s.pt
  {
    Free(s, s.pt[k].frame).(pt := s.pt - {k})
  }

  lemma UnmapKeeps(s: Sys, k: Key)
    requires Inv(s) && k in s.pt
    ensures Inv(Unmap(s, k)) && SameLooks(s, Unmap(s, k))
  {
    var f := s.pt[k].frame;
    var t := Unmap(s, k);
    UserCounts(s, k);
    forall g: nat ensures Refs(t, g) == Refs(s, g) - if g == f then 1 else 0 {
      UsersDel(s.pt, k, g);
    }
    assert CountedAt(s, f);
    forall g: nat | g < |t.cnt| ensures CountedAt(t, g) {
      assert CountedAt(s, g);
    }
    forall j ensures ExclusiveAt(t, j) && (j in t.pt ==> Look(t, j) == Look(s, j)) {
      assert ExclusiveAt(s, j);
      if j in t.pt {
        UserCounts(t, j);
        if s.pt[j].w { WritableIsAlone(s, j, k); }
      }
    }
    forall g ensures HeldAt(t, g) {
      assert HeldAt(s, g);
      if g in s.owner { OwnedIsUnmapped(s, g, k); }
    }
  }

  /** The page of a writable entry is free after it. */
  lemma UnmapFrees(s: Sys, k: Key)
    requires Inv(s) && k in s.pt
    ensures |s.free| <= |Unmap(s, k).free| <= |s.free| + 1
    ensures s.pt[k].w ==> |Unmap(s, k).free| == |s.free| + 1
  {
    assert ExclusiveAt(s, k) && CountedAt(s, s.pt[k].frame);
  }

  /** Freeing a page the kernel holds. */
  function Drop(s: Sys, f: nat): Sys
    requires f < |s.cnt| == |s.mem|
  {
    Free(s, f).(owner := s.owner - {f})
  }

  lemma DropKeeps(s: Sys, f: nat)
    requires Inv(s) && f in s.owner
    ensures Inv(Drop(s, f)) && SameLooks(s, Drop(s, f))
  {
    var t := Drop(s, f);
    assert CountedAt(s, f);
    forall g: nat | g < |t.cnt| ensures CountedAt(t, g) {
      assert CountedAt(s, g);
    }
    forall k ensures ExclusiveAt(t, k) && (k in s.pt ==> s.pt[k].frame != f) {
      assert ExclusiveAt(s, k);
      if k in s.pt { OwnedIsUnmapped(s, f, k); }
    }
    forall g ensures HeldAt(t, g) {
      assert HeldAt(s, g);
    }
  }

  // ---------------------------------------------------------------- entries

  /** Contents of a page only the kernel holds may change freely. */
  lemma FillOwned(s: Sys, f: nat, p: Page)
    requires Inv(s) && f in s.owner
    ensures Inv(s.(mem := s.mem[f := p])) && SameLooks(s, s.(mem := s.mem[f := p]))
  {
    var t := s.(mem := s.mem[f := p]);
    forall g: nat | g < |t.cnt| ensures CountedAt(t, g) {
      assert CountedAt(s, g);
    }
    forall k ensures ExclusiveAt(t, k) && (k in s.pt ==> s.pt[k].frame != f) {
      assert ExclusiveAt(s, k);
      if k in s.pt { OwnedIsUnmapped(s, f, k); }
    }
    forall g ensures HeldAt(t, g) {
      assert HeldAt(s, g);
    }
  }

  /** mappages of a page the kernel just allocated: its one reference moves to the entry. */
  lemma MapOwned(s: Sys, k: Key, e: Pte)
    requires Inv(s) && e.frame in s.owner && k !in s.pt && !(e.w && e.cow)
    ensures var t := s.(pt := s.pt[k := e], owner := s.owner - {e.frame});
            Inv(t) && SameLooks(s, t)
  {
    var t := s.(pt := s.pt[k := e], owner := s.owner - {e.frame});
    forall g: nat ensures Refs(t, g) == Refs(s, g) {
      UsersPut(s.pt, k, e, g);
    }
    forall g: nat | g < |t.cnt| ensures CountedAt(t, g) {
      assert CountedAt(s, g);
    }
    assert HeldAt(s, e.frame);
    forall j ensures ExclusiveAt(t, j) {
      assert ExclusiveAt(s, j);
    }
    forall g ensures HeldAt(t, g) {
      assert HeldAt(s, g);
    }
  }

  /** The first half of sharing: a writable entry becomes read-only and copy-on-write. */
  function Downgrade(e: Pte): Pte {
    if e.w then e.(w := false, cow := true) else e
  }

  lemma DowngradeKeeps(s: Sys, k: Key)
    requires Inv(s) && k in s.pt
    ensures var t := s.(pt := s.pt[k := Downgrade(s.pt[k])]);
            Inv(t) && SameLooks(s, t)
  {
    var t := s.(pt := s.pt[k := Downgrade(s.pt[k])]);
    UserCounts(s, k);
    forall g: nat ensures Refs(t, g) == Refs(s, g) {
      UsersPut(s.pt, k, Downgrade(s.pt[k]), g);
      assert Users(t.pt, g) == Users(s.pt, g);
    }
    forall g: nat | g < |t.cnt| ensures CountedAt(t, g) {
      assert CountedAt(s, g);
    }
    forall j ensures ExclusiveAt(t, j) {
      assert ExclusiveAt(s, j);
    }
    forall g ensures HeldAt(t, g) {
      assert HeldAt(s, g);
    }
  }

  /** The second half: entry j names the page of k too, and its count goes up. */
  function Share(s: Sys, k: Key, j: Key): Sys
    requires k in s.pt && s.pt[k].frame < |s.cnt|
  {
    var f := s.pt[k].frame;
    s.(pt := s.pt[j := s.pt[k]], cnt := s.cnt[f := s.cnt[f] + 1])
  }

  lemma ShareKeeps(s: Sys, k: Key, j: Key)
    requires Inv(s) && k in s.pt && j !in s.pt && !s.pt[k].w
    ensures Inv(Share(s, k, j)) && SameLooks(s, Share(s, k, j))
    ensures Look(Share(s, k, j), j) == Look(s, k)
  {
    var f := s.pt[k].frame;
    var t := Share(s, k, j);
    UserCounts(s, k);
    assert CountedAt(s, f);
    forall g: nat ensures Refs(t, g) == Refs(s, g) + if g == f then 1 else 0 {
      UsersPut(s.pt, j, s.pt[k], g);
    }
    forall g: nat | g < |t.cnt| ensures CountedAt(t, g) {
      assert CountedAt(s, g);
    }
    forall i ensures ExclusiveAt(t, i) {
      assert ExclusiveAt(s, i);
      if i in s.pt && s.pt[i].w { WritableIsAlone(s, i, k); }
    }
    forall g ensures HeldAt(t, g) {
      assert HeldAt(s, g);
      if g in s.owner { OwnedIsUnmapped(s, g, k); }
    }
  }

  /** Breaking the sharing of entry k: it names the private copy f, and the old page is freed. */
  function Privatize(s: Sys, k: Key, f: nat): Sys
    requires InRam(s) && k in s.pt
  {
    Free(s.(pt := s.pt[k := s.pt[k].(frame := f, w := true, cow := false)], owner := s.owner - {f}),
         s.pt[k].frame)
  }

  lemma PrivatizeKeeps(s: Sys, k: Key, f: nat)
    requires Inv(s) && k in s.pt && s.pt[k].cow && f in s.owner && s.mem[f] == s.mem[s.pt[k].frame]
    ensures Inv(Privatize(s, k, f)) && SameLooks(s, Privatize(s, k, f))
  {
    var e := s.pt[k].(frame := f, w := true, cow := false);
    var u := Unmap(s, k);
    OwnedIsUnmapped(s, f, k);
    UnmapKeeps(s, k);
    MapOwned(u, k, e);
    assert u.pt[k := e] == s.pt[k := e];
    var t := u.(pt := u.pt[k := e], owner := u.owner - {f});
    assert Privatize(s, k, f) == t;
    forall j ensures SameAt(s, t, j) {
      assert SameAt(s, u, j) && SameAt(u, t, j);
    }
  }

  /** A store through a writable entry changes that page for its one user and for nobody else. */
  lemma WriteKeeps(s: Sys, k: Key, p: Page)
    requires Inv(s) && k in s.pt && s.pt[k].w
    ensures var t := s.(mem := s.mem[s.pt[k].frame := p]);
            && Inv(t)
            && Look(t, k) == Look(s, k).(bytes := p)
            && (forall j :: j in s.pt && j != k ==> Look(t, j) == Look(s, j))
  {
    var t := s.(mem := s.mem[s.pt[k].frame := p]);
    forall g: nat ensures Refs(t, g) == Refs(s, g) {}
    forall g: nat | g < |t.cnt| ensures CountedAt(t, g) {
      assert CountedAt(s, g);
    }
    forall j ensures ExclusiveAt(t, j) && (j in s.pt && j != k ==> Look(t, j) == Look(s, j)) {
      assert ExclusiveAt(s, j);
      if j in s.pt && j != k { WritableIsAlone(s, k, j); }
    }
    forall g ensures HeldAt(t, g) {
      assert HeldAt(s, g);
    }
  }
}
