/**
 Three-level page tables: walk, mappages, uvmunmap and freewalk of kernel/vm.c
 (Sv39, section 4.4 of the RISC-V Privileged Specification).

 A table page is 512 entries.  `Find` is the translation a tree gives; the
 methods are proved to act on it as on a finite map from page number to entry.
 */
module Sv39 {

  /** A decoded entry: not valid, a pointer to a lower table, or a leaf. */
  datatype Entry = Empty | Table(child: nat) | Leaf(frame: nat, flags: nat)

  /** Where a table page hangs: the page above it and the slot in that page. */
  datatype Slot = Slot(page: nat, index: nat)

  const ENTRIES: nat := 512
  /** Virtual page numbers below MAXVA. */
  const MAXVPN: nat := 0x400_0000

  /** All table pages of one tree.  `level` and `parent` describe its shape. */
  datatype Tree = Tree(root: nat, nodes: map<nat, seq<Entry>>,
                       level: map<nat, nat>, parent: map<nat, Slot>)

  /** PX(level, va) for the page number of va. */
  function Px(level: nat, vpn: nat): (i: nat)
    ensures i < ENTRIES
  {
    if level == 0 then vpn % 512 else if level == 1 then vpn / 512 % 512 else vpn / 262144 % 512
  }

  // ------------------------------------------------- well-formed trees

  ghost predicate NodeOk(t: Tree, f: nat) {
    f in t.nodes ==>
      && |t.nodes[f]| == ENTRIES
      && f in t.level && t.level[f] <= 2
      && (t.level[f] == 2 <==> f == t.root)
      && (f != t.root ==> f in t.parent && Hangs(t, f, t.parent[f]))
  }

  ghost predicate Hangs(t: Tree, c: nat, s: Slot) {
    s.page in t.nodes && s.index < |t.nodes[s.page]| && t.nodes[s.page][s.index] == Table(c)
  }

  ghost predicate EntryOk(t: Tree, f: nat, i: nat) {
    f in t.nodes && i < |t.nodes[f]| && f in t.level ==>
      match t.nodes[f][i]
      case Empty => true
      case Leaf(_, _) => t.level[f] == 0
      case Table(c) =>
        c in t.nodes && c in t.level && t.level[c] + 1 == t.level[f] && c in t.parent && t.parent[c] == Slot(f, i)
  }

  ghost predicate Inv(t: Tree) {
    && t.root in t.nodes && t.root !in t.parent
    && (forall f :: NodeOk(t, f))
    && (forall f, i :: EntryOk(t, f, i))
  }

  // ------------------------------------------------- translation

  /** The entry of page f that the path of vpn uses at this level, if f is a table page. */
  function At(t: Tree, f: nat, level: nat, vpn: nat): Entry {
    if f in t.nodes && Px(level, vpn) < |t.nodes[f]| then t.nodes[f][Px(level, vpn)] else Empty
  }

  function Follow(t: Tree, e: Entry, level: nat, vpn: nat): Entry {
    if e.Table? then At(t, e.child, level, vpn) else Empty
  }

  /** The leaf for page number vpn, or Empty when it is not mapped. */
  function Find(t: Tree, vpn: nat): Entry {
    Follow(t, Follow(t, At(t, t.root, 2, vpn), 1, vpn), 0, vpn)
  }

  /** The table page of the given level on the path of vpn. */
  ghost predicate OnPath(t: Tree, vpn: nat, level: nat, f: nat) {
    if level >= 2 then level == 2 && f == t.root
    else if level == 1 then At(t, t.root, 2, vpn) == Table(f)
    else Follow(t, At(t, t.root, 2, vpn), 1, vpn) == Table(f)
  }

  lemma DigitsDetermine(u: nat, v: nat)
    requires u < MAXVPN && v < MAXVPN
    requires Px(0, u) == Px(0, v) && Px(1, u) == Px(1, v) && Px(2, u) == Px(2, v)
    ensures u == v
  {
    Digits(u);
    Digits(v);
  }

  lemma Digits(v: nat)
    requires v < MAXVPN
    ensures v == Px(2, v) * 262144 + Px(1, v) * 512 + Px(0, v)
  {
    assert v / 262144 == v / 512 / 512;
  }

  /** A page of the tree at level 0 belongs to one range of 512 page numbers. */
  lemma PathUnique(t: Tree, u: nat, v: nat, f: nat)
    requires Inv(t) && OnPath(t, u, 0, f) && OnPath(t, v, 0, f)
    ensures Px(1, u) == Px(1, v) && Px(2, u) == Px(2, v)
  {
    var mu := At(t, t.root, 2, u).child;
    var mv := At(t, t.root, 2, v).child;
    assert EntryOk(t, mu, Px(1, u)) && EntryOk(t, mv, Px(1, v));
    assert EntryOk(t, t.root, Px(2, u)) && EntryOk(t, t.root, Px(2, v));
    assert NodeOk(t, mu) && NodeOk(t, mv) && NodeOk(t, t.root);
  }

  lemma PathLevel(t: Tree, vpn: nat, level: nat, f: nat)
    requires Inv(t) && level <= 2 && OnPath(t, vpn, level, f)
    ensures f in t.nodes && f in t.level && t.level[f] == level && |t.nodes[f]| == ENTRIES
  {
    var e := At(t, t.root, 2, vpn);
    assert NodeOk(t, t.root) && EntryOk(t, t.root, Px(2, vpn));
    if level < 2 {
      assert NodeOk(t, e.child) && EntryOk(t, e.child, Px(1, vpn));
      assert NodeOk(t, f);
    }
  }

  // ------------------------------------------------- the updates of walk and mappages

  function ZeroPage(): seq<Entry> {
    seq(ENTRIES, _ => Empty)
  }

  /** walk creates table page c in the empty slot i of page f. */
  function Grow(t: Tree, f: nat, i: nat, c: nat): Tree
    requires f in t.nodes && i < |t.nodes[f]| && f in t.level && t.level[f] > 0
  {
    t.(nodes := t.nodes[c := ZeroPage()][f := t.nodes[f][i := Table(c)]],
       level := t.level[c := t.level[f] - 1],
       parent := t.parent[c := Slot(f, i)])
  }

  lemma GrowKeeps(t: Tree, f: nat, i: nat, c: nat)
    requires Inv(t) && f in t.nodes && i < ENTRIES && f in t.level && t.level[f] > 0
    requires |t.nodes[f]| == ENTRIES && t.nodes[f][i] == Empty && c !in t.nodes
    ensures Inv(Grow(t, f, i, c))
  {
    var u := Grow(t, f, i, c);
    assert NodeOk(t, f) && NodeOk(t, t.root);
    forall g ensures NodeOk(u, g) {
      assert NodeOk(t, g);
      if g in t.nodes && g != t.root {
        var s := t.parent[g];
        assert s != Slot(f, i);
        assert Hangs(u, g, s);
      }
    }
    forall g, j: nat ensures EntryOk(u, g, j) {
      assert EntryOk(t, g, j);
      if g in t.nodes && j < |t.nodes[g]| && t.nodes[g][j].Table? {
        assert NodeOk(t, g) && NodeOk(t, t.nodes[g][j].child);
      }
    }
  }

  /** Creating a table page changes no translation. */
  lemma GrowFinds(t: Tree, f: nat, i: nat, c: nat, v: nat)
    requires Inv(t) && f in t.nodes && i < ENTRIES && f in t.level && t.level[f] > 0
    requires |t.nodes[f]| == ENTRIES && t.nodes[f][i] == Empty && c !in t.nodes
    ensures Find(Grow(t, f, i, c), v) == Find(t, v)
  {
    var u := Grow(t, f, i, c);
    var e := At(t, t.root, 2, v);
    assert NodeOk(t, t.root) && EntryOk(t, t.root, Px(2, v));
    if e.Table? {
      assert NodeOk(t, e.child) && EntryOk(t, e.child, Px(1, v));
      var d := At(t, e.child, 1, v);
      if d.Table? {
        assert NodeOk(t, d.child) && EntryOk(t, d.child, Px(0, v));
        assert d.child != f;
      }
    }
  }

  /** Writing the leaf entry of vpn in its level-0 page f. */
  function Put(t: Tree, f: nat, i: nat, e: Entry): Tree
    requires f in t.nodes && i < |t.nodes[f]|
  {
    t.(nodes := t.nodes[f := t.nodes[f][i := e]])
  }

  lemma PutKeeps(t: Tree, f: nat, i: nat, e: Entry)
    requires Inv(t) && f in t.nodes && i < |t.nodes[f]| && f in t.level && t.level[f] == 0 && !e.Table?
    ensures Inv(Put(t, f, i, e))
  {
    var u := Put(t, f, i, e);
    assert NodeOk(t, f) && EntryOk(t, f, i);
    forall g ensures NodeOk(u, g) {
      assert NodeOk(t, g);
      if g in t.nodes && g != t.root {
        assert t.parent[g] != Slot(f, i);
        assert Hangs(u, g, t.parent[g]);
      }
    }
    forall g, j: nat ensures EntryOk(u, g, j) {
      assert EntryOk(t, g, j);
    }
  }

  /** It changes the translation of vpn and of no other page. */
  lemma PutFinds(t: Tree, vpn: nat, f: nat, e: Entry, v: nat)
    requires Inv(t) && vpn < MAXVPN && v < MAXVPN && OnPath(t, vpn, 0, f) && !e.Table?
    requires f in t.nodes && Px(0, vpn) < |t.nodes[f]|
    ensures Find(Put(t, f, Px(0, vpn), e), v) == if v == vpn then e else Find(t, v)
  {
    var u := Put(t, f, Px(0, vpn), e);
    PathLevel(t, vpn, 0, f);
    PutOnPath(t, f, Px(0, vpn), e, v);
    PutOnPath(t, f, Px(0, vpn), e, vpn);
    if v != vpn && OnPath(t, v, 0, f) {
      PathUnique(t, v, vpn, f);
      if Px(0, v) == Px(0, vpn) {
        DigitsDetermine(v, vpn);
      }
    }
  }

  lemma PutOnPath(t: Tree, f: nat, i: nat, e: Entry, v: nat)
    requires Inv(t) && f in t.nodes && f in t.level && t.level[f] == 0 && i < |t.nodes[f]| && !e.Table?
    ensures At(Put(t, f, i, e), t.root, 2, v) == At(t, t.root, 2, v)
    ensures Follow(Put(t, f, i, e), At(t, t.root, 2, v), 1, v) == Follow(t, At(t, t.root, 2, v), 1, v)
  {
    var a := At(t, t.root, 2, v);
    assert NodeOk(t, t.root) && NodeOk(t, f) && EntryOk(t, t.root, Px(2, v));
    if a.Table? {
      assert NodeOk(t, a.child);
    }
  }

  /** After walk has created the missing page, it is the next page on the path. */
  lemma GrowPath(t: Tree, vpn: nat, level: nat, f: nat, c: nat)
    requires Inv(t) && 0 < level <= 2 && OnPath(t, vpn, level, f) && c !in t.nodes
    requires At(t, f, level, vpn) == Empty
    ensures f in t.nodes && f in t.level && t.level[f] == level && |t.nodes[f]| == ENTRIES
    ensures OnPath(Grow(t, f, Px(level, vpn), c), vpn, level - 1, c)
  {
    PathLevel(t, vpn, level, f);
    assert NodeOk(t, t.root) && NodeOk(t, f);
  }

  ghost predicate SameFind(s: Tree, t: Tree, v: nat) {
    Find(t, v) == Find(s, v)
  }

  /** From s to t pages lo..hi were mapped to consecutive frames, and nothing else changed. */
  ghost predicate MappedAt(s: Tree, t: Tree, lo: nat, hi: nat, frame: nat, flags: nat, v: nat) {
    v < MAXVPN ==> Find(t, v) == if lo <= v < hi then Leaf(frame + (v - lo), flags) else Find(s, v)
  }

  ghost predicate MappedRange(s: Tree, t: Tree, lo: nat, hi: nat, frame: nat, flags: nat) {
    forall v: nat :: MappedAt(s, t, lo, hi, frame, flags, v)
  }

  /** From s to t pages lo..hi were unmapped, and nothing else changed. */
  ghost predicate UnmappedAt(s: Tree, t: Tree, lo: nat, hi: nat, v: nat) {
    v < MAXVPN ==> Find(t, v) == if lo <= v < hi then Empty else Find(s, v)
  }

  ghost predicate UnmappedRange(s: Tree, t: Tree, lo: nat, hi: nat) {
    forall v: nat :: UnmappedAt(s, t, lo, hi, v)
  }

  datatype MapResult = Mapped | NoMemory | Remap

  // ------------------------------------------------- entry encoding

  const ATTR: bv64 := 0xF800_0000_0000_03FF

  function PteOf(pa: bv64, flags: bv64): bv64 {
    ((pa >> 12) << 10) | flags
  }

  function PaOf(pte: bv64): bv64 {
    ((pte & 0x07FF_FFFF_FFFF_FFFF) >> 10) << 12
  }

  function FlagsOf(pte: bv64): bv64 {
    pte & ATTR
  }

  /** An entry gives back the aligned address and the flags it was made from. */
  lemma PteRoundTrip(pa: bv64, flags: bv64)
    requires pa & 0xFFF == 0 && pa & 0xE000_0000_0000_0000 == 0 && flags & ATTR == flags
    ensures PaOf(PteOf(pa, flags)) == pa && FlagsOf(PteOf(pa, flags)) == flags
  {
  }

  /** For an aligned address the page number starts at bit 10. */
  lemma PteBits(pa: bv64, flags: bv64)
    requires pa & 0xFFF == 0
    ensures PteOf(pa, flags) == (pa >> 2) | flags
    ensures FlagsOf(flags) == flags <==> flags & 0x07FF_FFFF_FFFF_FC00 == 0
  {
  }

  const TOP5: nat := 0x800_0000_0000_0000

  /** The word of an entry: page number from bit 10, flags below it and above bit 58. */
  function Encode(e: Entry): nat {
    match e
    case Empty => 0
    case Table(c) => c * 1024 + 1
    case Leaf(f, flags) => f * 1024 + flags
  }

  /** The entry a word stands for: valid by bit 0, a leaf by bits 1 to 3. */
  function Decode(x: nat): Entry {
    var page, low, high := x % TOP5 / 1024, x % 1024, x / TOP5;
    if low % 2 == 0 then Empty
    else if low / 2 % 8 == 0 then Table(page)
    else Leaf(page, low + high * TOP5)
  }

  /** Page numbers have 49 bits; the flags of a leaf are valid and allow something. */
  predicate Encodable(e: Entry) {
    match e
    case Empty => true
    case Table(c) => c < 0x2_0000_0000_0000
    case Leaf(f, flags) =>
      var low := flags % TOP5;
      f < 0x2_0000_0000_0000 && low < 1024 && flags / TOP5 < 32 && low % 2 == 1 && low / 2 % 8 != 0
  }

  lemma TopField(y: nat, high: nat)
    requires y < TOP5
    ensures (high * TOP5 + y) / TOP5 == high && (high * TOP5 + y) % TOP5 == y
  {
  }

  lemma LowFields(page: nat, low: nat, high: nat)
    requires low < 1024
    ensures (page * 1024 + low) / 1024 == page && (high * TOP5 + (page * 1024 + low)) % 1024 == low
  {
    assert high * TOP5 + (page * 1024 + low) == 1024 * (high * 0x2_0000_0000_0000 + page) + low;
  }

  /** The fields of a word that has them. */
  lemma Fields(x: nat, page: nat, low: nat, high: nat)
    requires page < 0x2_0000_0000_0000 && low < 1024 && x == high * TOP5 + (page * 1024 + low)
    ensures x % TOP5 / 1024 == page && x % 1024 == low && x / TOP5 == high
  {
    TopField(page * 1024 + low, high);
    LowFields(page, low, high);
  }

  /** The word in memory gives back the entry of the tree. */
  lemma EntryRoundTrip(e: Entry)
    requires Encodable(e)
    ensures Decode(Encode(e)) == e && Encode(e) < 0x1_0000_0000_0000_0000
  {
    match e
    case Empty =>
    case Table(c) => Fields(Encode(e), c, 1, 0);
    case Leaf(f, flags) => Fields(Encode(e), f, flags % TOP5, flags / TOP5);
  }

  // ------------------------------------------------- subtrees, for freewalk

  /** g is f or hangs below f. */
  ghost predicate Under(t: Tree, f: nat, g: nat) {
    g == f || (g in t.parent && (t.parent[g].page == f ||
                (t.parent[g].page in t.parent && t.parent[t.parent[g].page].page == f)))
  }

  /** g hangs below f from one of its first n slots. */
  ghost predicate UnderSlot(t: Tree, f: nat, n: nat, g: nat) {
    g in t.parent && if t.parent[g].page == f then t.parent[g].index < n
      else var p := t.parent[g].page;
           p in t.parent && t.parent[p].page == f && t.parent[p].index < n
  }

  /** The entries of f with its first n pointers to tables cleared. */
  ghost predicate Cleared(was: seq<Entry>, now: seq<Entry>, n: nat) {
    |now| == |was| && forall i :: 0 <= i < |now| ==> now[i] == if i < n && was[i].Table? then Empty else was[i]
  }

  /** Page f has its first n slots cleared, and the pages below them are gone. */
  ghost predicate CutAt(s: Tree, nodes: map<nat, seq<Entry>>, f: nat, n: nat, g: nat) {
    && (g in nodes <==> g in s.nodes && !UnderSlot(s, f, n, g))
    && (g in nodes ==> if g == f then Cleared(s.nodes[g], nodes[g], n) else nodes[g] == s.nodes[g])
  }

  ghost predicate Cut(s: Tree, nodes: map<nat, seq<Entry>>, f: nat, n: nat) {
    forall g :: CutAt(s, nodes, f, n, g)
  }

  /** What freewalk(f) leaves: all pages but those under f. */
  ghost predicate FreedAt(s: Tree, nodes: map<nat, seq<Entry>>, f: nat, g: nat) {
    && (g in nodes <==> g in s.nodes && !Under(s, f, g))
    && (g in nodes ==> nodes[g] == s.nodes[g])
  }

  ghost predicate Freed(s: Tree, nodes: map<nat, seq<Entry>>, f: nat) {
    forall g :: FreedAt(s, nodes, f, g)
  }

  lemma ParentLevel(t: Tree, g: nat)
    requires Inv(t) && g in t.nodes && g != t.root
    ensures g in t.parent && Hangs(t, g, t.parent[g])
    ensures var p := t.parent[g].page; p in t.nodes && p in t.level && g in t.level && t.level[p] == t.level[g] + 1
  {
    assert NodeOk(t, g);
    assert NodeOk(t, t.parent[g].page) && EntryOk(t, t.parent[g].page, t.parent[g].index);
  }

  /** Below a slot there is exactly its child and what is below the child. */
  lemma SlotIsSubtree(s: Tree, f: nat, i: nat, c: nat, g: nat)
    requires Inv(s) && f in s.nodes && i < |s.nodes[f]| && s.nodes[f][i] == Table(c) && g in s.nodes
    ensures UnderSlot(s, f, i + 1, g) <==> UnderSlot(s, f, i, g) || Under(s, c, g)
    ensures f != c && !Under(s, c, f)
  {
    assert NodeOk(s, f) && EntryOk(s, f, i) && NodeOk(s, c);
    if f != s.root { ParentLevel(s, f); }
    if g != s.root {
      ParentLevel(s, g);
      var p := s.parent[g].page;
      if p != s.root { ParentLevel(s, p); }
    }
    if f != s.root && s.parent[f].page != s.root { ParentLevel(s, s.parent[f].page); }
  }

  lemma EmptySlot(s: Tree, f: nat, i: nat, g: nat)
    requires Inv(s) && f in s.nodes && i < |s.nodes[f]| && !s.nodes[f][i].Table? && g in s.nodes
    ensures UnderSlot(s, f, i + 1, g) <==> UnderSlot(s, f, i, g)
  {
    if g != s.root {
      ParentLevel(s, g);
      var p := s.parent[g].page;
      if p != s.root { ParentLevel(s, p); }
    }
  }

  lemma EmptySlots(s: Tree, f: nat, i: nat)
    requires Inv(s) && f in s.nodes && i < |s.nodes[f]| && !s.nodes[f][i].Table?
    ensures forall g :: g in s.nodes ==> (UnderSlot(s, f, i + 1, g) <==> UnderSlot(s, f, i, g))
  {
    var next := i + 1;
    forall g | g in s.nodes ensures UnderSlot(s, f, next, g) <==> UnderSlot(s, f, i, g) {
      EmptySlot(s, f, i, g);
    }
  }

  lemma NotBelowItself(s: Tree, f: nat, n: nat)
    requires Inv(s) && f in s.nodes
    ensures !UnderSlot(s, f, n, f)
  {
    if f != s.root {
      ParentLevel(s, f);
      if s.parent[f].page != s.root { ParentLevel(s, s.parent[f].page); }
    }
  }

  lemma CutInv(s: Tree, nodes: map<nat, seq<Entry>>, f: nat, n: nat)
    requires Inv(s) && f in s.nodes && Cut(s, nodes, f, n)
    ensures Inv(s.(nodes := nodes)) && f in nodes
  {
    var t := s.(nodes := nodes);
    NotBelowItself(s, f, n);
    assert CutAt(s, nodes, f, n, f) && CutAt(s, nodes, f, n, s.root);
    forall g ensures NodeOk(t, g) {
      assert CutAt(s, nodes, f, n, g) && NodeOk(s, g);
      if g in nodes && g != s.root {
        ParentLevel(s, g);
        var p := s.parent[g];
        assert CutAt(s, nodes, f, n, p.page);
        assert NodeOk(s, f);
        if p.page != s.root {
          ParentLevel(s, p.page);
          var pp := s.parent[p.page].page;
          if pp != s.root { ParentLevel(s, pp); }
        }
        assert Hangs(t, g, p);
      }
    }
    forall g, j: nat ensures EntryOk(t, g, j) {
      assert CutAt(s, nodes, f, n, g) && EntryOk(s, g, j) && NodeOk(s, g);
      if g in nodes && j < |nodes[g]| && nodes[g][j].Table? {
        var c := nodes[g][j].child;
        assert CutAt(s, nodes, f, n, c);
        if UnderSlot(s, f, n, c) && g != f {
          assert UnderSlot(s, f, n, g);
        }
      }
    }
  }

  lemma CutStep(s: Tree, nodes: map<nat, seq<Entry>>, rest: map<nat, seq<Entry>>, f: nat, i: nat, c: nat)
    requires Inv(s) && f in s.nodes && i < |s.nodes[f]| && s.nodes[f][i] == Table(c)
    requires Cut(s, nodes, f, i) && Freed(s.(nodes := nodes), rest, c)
    ensures f in rest && i < |rest[f]|
    ensures Cut(s, rest[f := rest[f][i := Empty]], f, i + 1)
  {
    SlotIsSubtree(s, f, i, c, f);
    NotBelowItself(s, f, i);
    assert CutAt(s, nodes, f, i, f) && FreedAt(s.(nodes := nodes), rest, c, f);
    var next := i + 1;
    var out := rest[f := rest[f][i := Empty]];
    forall g ensures CutAt(s, out, f, next, g) {
      assert CutAt(s, nodes, f, i, g) && FreedAt(s.(nodes := nodes), rest, c, g);
      if g in s.nodes {
        SlotIsSubtree(s, f, i, c, g);
        assert Under(s.(nodes := nodes), c, g) == Under(s, c, g);
      }
    }
  }

  lemma CutSkip(s: Tree, nodes: map<nat, seq<Entry>>, f: nat, i: nat)
    requires Inv(s) && f in s.nodes && i < |s.nodes[f]| && !s.nodes[f][i].Table? && Cut(s, nodes, f, i)
    ensures Cut(s, nodes, f, i + 1)
  {
    var next := i + 1;
    forall g ensures CutAt(s, nodes, f, next, g) {
      assert CutAt(s, nodes, f, i, g);
      if g in s.nodes { EmptySlot(s, f, i, g); }
    }
  }

  /** The pages under the first i + 1 entries are those under the first i and those freed
      from what was left below entry i. */
  lemma SlotFreed(s: Tree, before: map<nat, seq<Entry>>, f: nat, i: nat, c: nat, g: nat)
    requires Inv(s) && f in s.nodes && i < |s.nodes[f]| && s.nodes[f][i] == Table(c) && CutAt(s, before, f, i, g)
    ensures g in s.nodes && UnderSlot(s, f, i + 1, g) <==>
            (g in before && Under(s, c, g)) || (g in s.nodes && UnderSlot(s, f, i, g))
  {
    if g in s.nodes { SlotIsSubtree(s, f, i, c, g); }
  }

  lemma SlotsFreed(s: Tree, before: map<nat, seq<Entry>>, f: nat, i: nat, c: nat, sub: seq<nat>, freed: seq<nat>)
    requires Inv(s) && f in s.nodes && i < |s.nodes[f]| && s.nodes[f][i] == Table(c) && Cut(s, before, f, i)
    requires forall g :: g in sub <==> g in before && Under(s, c, g)
    requires forall g :: g in freed <==> g in s.nodes && UnderSlot(s, f, i, g)
    ensures forall g :: g in sub + freed <==> g in s.nodes && UnderSlot(s, f, i + 1, g)
  {
    forall g ensures g in sub + freed <==> g in s.nodes && UnderSlot(s, f, i + 1, g) {
      assert CutAt(s, before, f, i, g);
      SlotFreed(s, before, f, i, c, g);
    }
  }

  /** With all its entries cut, giving up page f frees everything under it. */
  lemma CutLast(s: Tree, before: map<nat, seq<Entry>>, f: nat, g: nat)
    requires Inv(s) && f in s.nodes && Cut(s, before, f, ENTRIES)
    ensures FreedAt(s, before - {f}, f, g)
    ensures g in s.nodes && Under(s, f, g) <==> g == f || (g in s.nodes && UnderSlot(s, f, ENTRIES, g))
  {
    assert CutAt(s, before, f, ENTRIES, g);
    if g in s.nodes { CutAll(s, f, g); }
  }

  lemma CutEnd(s: Tree, before: map<nat, seq<Entry>>, f: nat, some: seq<nat>)
    requires Inv(s) && f in s.nodes && Cut(s, before, f, ENTRIES)
    requires forall g :: g in some <==> g in s.nodes && UnderSlot(s, f, ENTRIES, g)
    ensures Freed(s, before - {f}, f)
    ensures forall g :: g in [f] + some <==> g in s.nodes && Under(s, f, g)
  {
    var all := [f] + some;
    forall g ensures FreedAt(s, before - {f}, f, g) && (g in all <==> g in s.nodes && Under(s, f, g)) {
      assert g in all <==> g == f || g in some;
      CutLast(s, before, f, g);
    }
  }

  lemma CutAll(s: Tree, f: nat, g: nat)
    requires Inv(s) && f in s.nodes && g in s.nodes
    ensures Under(s, f, g) <==> g == f || UnderSlot(s, f, ENTRIES, g)
  {
    if g != s.root {
      ParentLevel(s, g);
      var p := s.parent[g].page;
      assert NodeOk(s, p);
      if p != s.root {
        ParentLevel(s, p);
        assert NodeOk(s, s.parent[p].page);
      }
    }
  }

  /** Every table page hangs below the root. */
  lemma AllUnderRoot(s: Tree, g: nat)
    requires Inv(s) && g in s.nodes
    ensures Under(s, s.root, g)
  {
    assert NodeOk(s, g);
    if g != s.root {
      ParentLevel(s, g);
      var p := s.parent[g].page;
      assert NodeOk(s, p);
      if p != s.root {
        ParentLevel(s, p);
        assert NodeOk(s, s.parent[p].page);
      }
    }
  }

  /** How many table pages are missing below page f, at level l, on the way to vpn. */
  function MissingFrom(t: Tree, f: nat, l: nat, vpn: nat): (n: nat)
    ensures n <= l
    decreases l
  {
    if l == 0 || f !in t.nodes || |t.nodes[f]| != ENTRIES then 0
    else
      match t.nodes[f][Px(l, vpn)]
      case Table(c) => MissingFrom(t, c, l - 1, vpn)
      case Empty => l
      case Leaf(_, _) => l
  }

  /** How many table pages a mapping of vpn takes. */
  function Missing(t: Tree, vpn: nat): nat {
    MissingFrom(t, t.root, if t.root in t.level then t.level[t.root] else 2, vpn)
  }

  /** b is the end of a. */
  ghost predicate EndOf(a: seq<nat>, b: seq<nat>) {
    |b| <= |a| && b == a[|a| - |b|..]
  }

  lemma DropOne(a: seq<nat>, b: seq<nat>)
    requires EndOf(a, b) && b != []
    ensures EndOf(a, b[1..])
  {
  }

  /** The way ends above level 0. */
  lemma NoPath(t: Tree, vpn: nat, l: nat, f: nat)
    requires Inv(t) && 0 < l <= 2 && OnPath(t, vpn, l, f) && !At(t, f, l, vpn).Table?
    ensures Find(t, vpn) == Empty && forall g :: !OnPath(t, vpn, 0, g)
  {
    PathLevel(t, vpn, l, f);
    assert EntryOk(t, f, Px(l, vpn));
  }

  /** A page just added is empty: all levels below it are missing. */
  lemma GrownMissing(t: Tree, c: nat, l: nat, vpn: nat)
    requires c in t.nodes && t.nodes[c] == ZeroPage()
    ensures MissingFrom(t, c, l, vpn) == l
  {
  }

  class PageTable {
    const root: nat
    var nodes: map<nat, seq<Entry>>
    var avail: seq<nat>                  // what kalloc will hand out
    ghost var level: map<nat, nat>
    ghost var parent: map<nat, Slot>

    ghost function T(): Tree
      reads this
    {
      Tree(root, nodes, level, parent)
    }

    ghost predicate Supply()
      reads this
    {
      && (forall i :: 0 <= i < |avail| ==> avail[i] !in nodes)
      && (forall i, j :: 0 <= i < j < |avail| ==> avail[i] != avail[j])
    }

    ghost predicate Valid()
      reads this
    {
      Inv(T()) && Supply()
    }

    /** uvmcreate: an empty table. */
    constructor (root: nat, pages: seq<nat>)
      requires root !in pages && forall i, j :: 0 <= i < j < |pages| ==> pages[i] != pages[j]
      ensures Valid() && this.root == root && avail == pages && nodes.Keys == {root}
      ensures forall v :: Find(T(), v) == Empty
    {
      this.root := root;
      nodes := map[root := ZeroPage()];
      level, parent := map[root := 2], map[];
      avail := pages;
    }

    /** One new table page below page f, which is at level l on the way to vpn. */
    method GrowAt(vpn: nat, l: nat, f: nat) returns (c: nat)
      requires Valid() && vpn < MAXVPN && 0 < l <= 2 && OnPath(T(), vpn, l, f) && avail != []
      requires f in nodes && |nodes[f]| == ENTRIES && f in level && level[f] == l && nodes[f][Px(l, vpn)] == Empty
      modifies this
      ensures Valid() && OnPath(T(), vpn, l - 1, c) && avail == old(avail)[1..]
      ensures MissingFrom(T(), c, l - 1, vpn) == l - 1
      ensures forall v :: SameFind(old(T()), T(), v)
    {
      c := avail[0];
      ghost var t := T();
      var i := Px(l, vpn);
      GrowKeeps(t, f, i, c);
      GrowPath(t, vpn, l, f, c);
      forall v ensures SameFind(t, Grow(t, f, i, c), v) { GrowFinds(t, f, i, c, v); }
      avail := avail[1..];
      nodes := nodes[c := ZeroPage()][f := nodes[f][i := Table(c)]];
      level, parent := level[c := level[f] - 1], parent[c := Slot(f, i)];
      GrownMissing(T(), c, l - 1, vpn);
    }

    /** The level-0 page for vpn, creating pages on the way if alloc. */
    method Walk(vpn: nat, alloc: bool) returns (ok: bool, f: nat)
      requires Valid() && vpn < MAXVPN
      modifies this
      ensures Valid() && forall v :: SameFind(old(T()), T(), v)
      ensures ok ==> OnPath(T(), vpn, 0, f)
      ensures !alloc ==> T() == old(T()) && avail == old(avail)
      ensures !ok ==> Find(T(), vpn) == Empty && (alloc ==> avail == [])
      ensures !ok ==> forall g :: !OnPath(T(), vpn, 0, g)
      ensures alloc ==> (ok <==> Missing(old(T()), vpn) <= |old(avail)|)
      ensures alloc && ok ==> avail == old(avail)[Missing(old(T()), vpn)..]
      ensures !alloc ==> (ok <==> Missing(T(), vpn) == 0)
    {
      f := root;
      ghost var s, a := T(), avail;
      var l := 2;
      WalkStart(vpn, alloc);
      while l > 0
        invariant Walking(s, a, vpn, l, f, alloc)
      {
        var next;
        ok, next := WalkDown(vpn, l, f, alloc, s, a);
        if !ok {
          WalkMissed(s, a, vpn, l, f, alloc);
          return false, 0;
        }
        f, l := next, l - 1;
      }
      WalkFound(s, a, vpn, f, alloc);
      ok := true;
    }

    lemma WalkStart(vpn: nat, alloc: bool)
      requires Valid()
      ensures Walking(T(), avail, vpn, 2, root, alloc)
    {
      assert NodeOk(T(), root);
    }

    lemma WalkFound(s: Tree, a: seq<nat>, vpn: nat, f: nat, alloc: bool)
      requires Walking(s, a, vpn, 0, f, alloc)
      ensures Missing(s, vpn) <= |a| && avail == a[Missing(s, vpn)..] && (!alloc ==> Missing(s, vpn) == 0)
    {
    }

    lemma WalkMissed(s: Tree, a: seq<nat>, vpn: nat, l: nat, f: nat, alloc: bool)
      requires Walking(s, a, vpn, l, f, alloc) && MissingFrom(T(), f, l, vpn) > 0 && (alloc ==> avail == [])
      ensures Missing(s, vpn) > if alloc then |a| else 0
    {
    }

    /** walk, begun with tree s and pages a, has come to page f at level l. */
    ghost predicate Walking(s: Tree, a: seq<nat>, vpn: nat, l: nat, f: nat, alloc: bool)
      reads this
    {
      && l <= 2 && Valid() && OnPath(T(), vpn, l, f)
      && (forall v :: SameFind(s, T(), v))
      && (!alloc ==> T() == s && avail == a)
      && EndOf(a, avail) && |avail| + Missing(s, vpn) == |a| + MissingFrom(T(), f, l, vpn)
    }

    /** One turn of the loop of walk. */
    method WalkDown(vpn: nat, l: nat, f: nat, alloc: bool, ghost s: Tree, ghost a: seq<nat>) returns (ok: bool, c: nat)
      requires Walking(s, a, vpn, l, f, alloc) && l > 0 && vpn < MAXVPN
      modifies this
      ensures ok ==> Walking(s, a, vpn, l - 1, c, alloc)
      ensures !ok ==> Walking(s, a, vpn, l, f, alloc) && MissingFrom(T(), f, l, vpn) > 0 && (alloc ==> avail == [])
      ensures !ok ==> Find(T(), vpn) == Empty && forall g :: !OnPath(T(), vpn, 0, g)
    {
      PathLevel(T(), vpn, l, f);
      var e := nodes[f][Px(l, vpn)];
      if e.Table? {
        WalkTable(vpn, l, f, e.child, alloc, s, a);
        return true, e.child;
      }
      NoPath(T(), vpn, l, f);
      if !alloc || |avail| == 0 {
        return false, 0;
      }
      c := WalkGrow(vpn, l, f, s, a);
      ok := true;
    }

    lemma WalkTable(vpn: nat, l: nat, f: nat, c: nat, alloc: bool, s: Tree, a: seq<nat>)
      requires Walking(s, a, vpn, l, f, alloc) && l > 0 && At(T(), f, l, vpn) == Table(c)
      ensures Walking(s, a, vpn, l - 1, c, alloc)
    {
      PathLevel(T(), vpn, l, f);
    }

    /** A turn that adds a table page. */
    method WalkGrow(vpn: nat, l: nat, f: nat, ghost s: Tree, ghost a: seq<nat>) returns (c: nat)
      requires Walking(s, a, vpn, l, f, true) && l > 0 && vpn < MAXVPN && avail != [] && !At(T(), f, l, vpn).Table?
      modifies this
      ensures Walking(s, a, vpn, l - 1, c, true)
    {
      PathLevel(T(), vpn, l, f);
      assert EntryOk(T(), f, Px(l, vpn));
      ghost var t := T();
      assert MissingFrom(t, f, l, vpn) == l;
      DropOne(a, avail);
      c := GrowAt(vpn, l, f);
      forall v ensures SameFind(s, T(), v) {
        assert SameFind(s, t, v) && SameFind(t, T(), v);
      }
    }

    /** Map n pages from vpn0 to consecutive frames; m of them were mapped. */
    method Mappages(vpn0: nat, n: nat, frame: nat, flags: nat) returns (r: MapResult, m: nat)
      requires Valid() && n > 0 && vpn0 + n <= MAXVPN
      modifies this
      ensures Valid() && m <= n
      ensures MappedRange(old(T()), T(), vpn0, vpn0 + m, frame, flags)
      ensures r == Mapped <==> m == n
      ensures r == NoMemory ==> avail == []
      ensures r == Remap ==> Find(old(T()), vpn0 + m) != Empty
      ensures r == Mapped ==> forall v: nat :: vpn0 <= v < vpn0 + n ==> Find(old(T()), v) == Empty
    {
      m := 0;
      ghost var s := T();
      while true
        invariant m < n && Valid()
        invariant MappedRange(s, T(), vpn0, vpn0 + m, frame, flags)
        invariant forall v: nat :: vpn0 <= v < vpn0 + m ==> Find(s, v) == Empty
        decreases n - m
      {
        r := MapTurn(s, vpn0, m, frame, flags);
        if r != Mapped {
          return r, m;
        }
        m := m + 1;
        if m == n {
          return Mapped, m;
        }
      }
    }

    /** One turn of the loop of mappages, begun with tree s. */
    method MapTurn(ghost s: Tree, vpn0: nat, m: nat, frame: nat, flags: nat) returns (r: MapResult)
      requires Valid() && vpn0 + m < MAXVPN && MappedRange(s, T(), vpn0, vpn0 + m, frame, flags)
      modifies this
      ensures Valid() && MappedRange(s, T(), vpn0, if r == Mapped then vpn0 + m + 1 else vpn0 + m, frame, flags)
      ensures r == NoMemory ==> avail == []
      ensures r != NoMemory ==> (r == Mapped <==> Find(s, vpn0 + m) == Empty)
    {
      ghost var t := T();
      var hi := vpn0 + m;
      var ok, f := Walk(hi, true);
      forall v: nat ensures MappedAt(s, T(), vpn0, hi, frame, flags, v) {
        assert MappedAt(s, t, vpn0, hi, frame, flags, v) && SameFind(t, T(), v);
      }
      if !ok {
        return NoMemory;
      }
      PathLevel(T(), hi, 0, f);
      assert MappedAt(s, T(), vpn0, hi, frame, flags, hi);
      assert EntryOk(T(), f, Px(0, hi));
      if nodes[f][Px(0, hi)] != Empty {
        return Remap;
      }
      SetLeaf(s, vpn0, m, frame, flags, f);
      r := Mapped;
    }

    method SetLeaf(ghost s: Tree, vpn0: nat, m: nat, frame: nat, flags: nat, f: nat)
      requires Valid() && vpn0 + m < MAXVPN && MappedRange(s, T(), vpn0, vpn0 + m, frame, flags)
      requires OnPath(T(), vpn0 + m, 0, f) && f in nodes && |nodes[f]| == ENTRIES
      modifies this`nodes
      ensures Valid() && MappedRange(s, T(), vpn0, vpn0 + m + 1, frame, flags)
    {
      ghost var t := T();
      var hi, e := vpn0 + m, Leaf(frame + m, flags);
      PathLevel(t, hi, 0, f);
      PutKeeps(t, f, Px(0, hi), e);
      ghost var next := hi + 1;
      forall v: nat ensures MappedAt(s, Put(t, f, Px(0, hi), e), vpn0, next, frame, flags, v) {
        assert MappedAt(s, t, vpn0, hi, frame, flags, v);
        if v < MAXVPN { PutFinds(t, hi, f, e, v); }
      }
      nodes := nodes[f := nodes[f][Px(0, hi) := e]];
    }

    /** Remove the n mappings from vpn0, which must exist; their frames are returned for kfree. */
    method Uvmunmap(vpn0: nat, n: nat) returns (frames: seq<nat>)
      requires Valid() && vpn0 + n <= MAXVPN
      requires forall v: nat :: vpn0 <= v < vpn0 + n ==> Find(T(), v).Leaf?
      modifies this
      ensures Valid() && avail == old(avail) && UnmappedRange(old(T()), T(), vpn0, vpn0 + n)
      ensures |frames| == n
      ensures forall k :: 0 <= k < n ==> Find(old(T()), vpn0 + k).Leaf? && frames[k] == Find(old(T()), vpn0 + k).frame
    {
      ghost var s := T();
      frames := [];
      var v := vpn0;
      while v < vpn0 + n
        invariant vpn0 <= v <= vpn0 + n && |frames| == v - vpn0
        invariant Valid() && avail == old(avail) && UnmappedRange(s, T(), vpn0, v)
        invariant forall k :: 0 <= k < |frames| ==> frames[k] == Find(s, vpn0 + k).frame
      {
        ghost var t := T();
        var ok, f := Walk(v, false);
        assert UnmappedAt(s, t, vpn0, v, v);
        PathLevel(t, v, 0, f);
        frames := frames + [nodes[f][Px(0, v)].frame];
        PutKeeps(t, f, Px(0, v), Empty);
        ghost var next := v + 1;
        forall u: nat ensures UnmappedAt(s, Put(t, f, Px(0, v), Empty), vpn0, next, u) {
          assert UnmappedAt(s, t, vpn0, v, u);
          if u < MAXVPN { PutFinds(t, v, f, Empty, u); }
        }
        nodes := nodes[f := nodes[f][Px(0, v) := Empty]];
        v := v + 1;
      }
    }

    /** kfree of a table page. */
    method FreePage(f: nat)
      requires Supply() && f in nodes
      modifies this`nodes, this`avail
      ensures Supply() && nodes == old(nodes) - {f} && avail == [f] + old(avail)
    {
      nodes := nodes - {f};
      avail := [f] + avail;
    }

    /** Entry i of page f: what lies below it goes back, and the entry is cleared. */
    method FreeSlot(ghost s: Tree, f: nat, i: nat, some: seq<nat>) returns (freed: seq<nat>)
      requires Inv(s) && f in s.nodes && i < ENTRIES && level == s.level && parent == s.parent && root == s.root
      requires Cut(s, nodes, f, i) && Supply()
      requires forall g :: g in some <==> g in s.nodes && UnderSlot(s, f, i, g)
      modifies this
      ensures level == old(level) && parent == old(parent)
      ensures Cut(s, nodes, f, i + 1) && Supply()
      ensures exists sub :: freed == sub + some && avail == sub + old(avail)
      ensures forall g :: g in freed <==> g in s.nodes && UnderSlot(s, f, i + 1, g)
      decreases if f in level then level[f] else 0, 0
    {
      assert NodeOk(s, f);
      CutInv(s, nodes, f, i);
      assert CutAt(s, nodes, f, i, f) && EntryOk(T(), f, i) && NodeOk(T(), f);
      var e := nodes[f][i];
      if e.Table? {
        ghost var before := nodes;
        var sub := Freewalk(e.child);
        CutStep(s, before, nodes, f, i, e.child);
        SlotsFreed(s, before, f, i, e.child, sub, some);
        nodes := nodes[f := nodes[f][i := Empty]];
        freed := sub + some;
      } else {
        CutSkip(s, nodes, f, i);
        EmptySlots(s, f, i);
        freed := some;
        assert freed == [] + some && avail == [] + avail;
      }
    }

    /** Free page f and every table page below it, each once. */
    method Freewalk(f: nat) returns (freed: seq<nat>)
      requires Valid() && f in nodes
      modifies this
      ensures level == old(level) && parent == old(parent)
      ensures Supply() && Freed(old(T()), nodes, f)
      ensures avail == freed + old(avail)
      ensures forall g :: g in freed <==> g in old(nodes) && Under(old(T()), f, g)
      decreases if f in level then level[f] else 0, 1
    {
      ghost var s := T();
      assert NodeOk(s, f);
      freed := [];
      var i := 0;
      forall g ensures CutAt(s, nodes, f, 0, g) {}
      while i < ENTRIES
        invariant 0 <= i <= ENTRIES && level == s.level && parent == s.parent
        invariant Cut(s, nodes, f, i) && Supply() && avail == freed + old(avail)
        invariant forall g :: g in freed <==> g in s.nodes && UnderSlot(s, f, i, g)
      {
        freed := FreeSlot(s, f, i, freed);
        i := i + 1;
      }
      ghost var before, some := nodes, freed;
      assert CutAt(s, before, f, ENTRIES, f);
      NotBelowItself(s, f, ENTRIES);
      FreePage(f);
      freed := [f] + freed;
      CutEnd(s, before, f, some);
    }

    /** freewalk of the whole tree: every table page goes back exactly once. */
    method FreeAll() returns (freed: seq<nat>)
      requires Valid()
      modifies this
      ensures nodes == map[] && avail == freed + old(avail)
      ensures forall g :: g in freed <==> g in old(nodes)
      ensures forall i, j :: 0 <= i < j < |freed| ==> freed[i] != freed[j]
    {
      ghost var s := T();
      freed := Freewalk(root);
      forall g ensures g !in nodes && (g in s.nodes ==> Under(s, root, g)) {
        assert FreedAt(s, nodes, root, g);
        if g in s.nodes { AllUnderRoot(s, g); }
      }
      assert forall i :: 0 <= i < |freed| ==> avail[i] == freed[i];
    }
  }
}
