/**
 The simple system that copy-on-write must be indistinguishable from: every
 process has its own pages, and fork copies all of them (the outline kept in
 kernel/vm.c behind `#ifndef LAB_COW`).
 */
module EagerCopy {
  import opened PhysicalPages

  /** sz rounded up to pages. */
  function Pages(sz: nat): nat {
    (sz + PGSIZE - 1) / PGSIZE
  }

  datatype Proc = Proc(pages: seq<PageView>, sz: nat, killed: bool)
  type World = map<nat, Proc>

  /** The page uvmfirst makes: the code, then zeros. */
  function FirstPage(src: seq<Byte>): PageView
    requires |src| <= PGSIZE
  {
    PageView(src + Fill(0)[|src|..], true, true, true, true)
  }

  const ZERO_PAGE := PageView(Fill(0), true, true, false, true)

  predicate MayStore(pages: seq<PageView>, va: nat) {
    var v := va / PGSIZE;
    v < |pages| && pages[v].u && pages[v].w
  }

  function StoreByte(pages: seq<PageView>, va: nat, b: Byte): seq<PageView>
    requires MayStore(pages, va)
  {
    var v := va / PGSIZE;
    pages[v := pages[v].(bytes := pages[v].bytes[va % PGSIZE := b])]
  }

  /** One page with address base after src was written at address va. */
  function WrittenPage(page: Page, base: nat, va: nat, src: seq<Byte>): Page {
    seq(PGSIZE, o requires 0 <= o < PGSIZE =>
      if va <= base + o < va + |src| then src[base + o - va] else page[o])
  }

  /** All pages after src was written at address va, whatever page boundaries it crosses. */
  function Written(pages: seq<PageView>, va: nat, src: seq<Byte>): seq<PageView> {
    seq(|pages|, v requires 0 <= v < |pages| =>
      pages[v].(bytes := WrittenPage(pages[v].bytes, v * PGSIZE, va, src)))
  }

  /** How many of the bytes can be stored before one that cannot. */
  function Storable(pages: seq<PageView>, va: nat, n: nat): (k: nat)
    ensures k <= n
    decreases n
  {
    if n == 0 || !MayStore(pages, va) then 0 else 1 + Storable(pages, va + 1, n - 1)
  }

  function Store(w: World, p: nat, va: nat, b: Byte): World
    requires p in w
  {
    if MayStore(w[p].pages, va)
    then w[p := w[p].(pages := StoreByte(w[p].pages, va, b))]
    else w[p := w[p].(killed := true)]
  }

  function Copyout(w: World, p: nat, va: nat, src: seq<Byte>): World
    requires p in w
  {
    CopyoutUpTo(w, p, va, src, Storable(w[p].pages, va, |src|))
  }

  function CopyoutUpTo(w: World, p: nat, va: nat, src: seq<Byte>, n: nat): World
    requires p in w && n <= |src|
  {
    w[p := w[p].(pages := Written(w[p].pages, va, src[..n]))]
  }

  function Fork(w: World, p: nat, c: nat): World
    requires p in w
  {
    w[c := w[p].(killed := false)]
  }

  function Grow(w: World, p: nat, n: nat): World
    requires p in w
  {
    var q := w[p];
    var more := if Pages(q.sz + n) >= |q.pages| then Pages(q.sz + n) - |q.pages| else 0;
    w[p := q.(pages := q.pages + seq(more, _ => ZERO_PAGE), sz := q.sz + n)]
  }

  /** Shrinking by more than the whole size leaves the process alone (the size wraps around). */
  function Shrink(w: World, p: nat, n: nat): World
    requires p in w
  {
    var q := w[p];
    if n > q.sz then w
    else
      var k := Pages(q.sz - n);
      w[p := q.(pages := if k <= |q.pages| then q.pages[..k] else q.pages, sz := q.sz - n)]
  }

  // ------------------------------------------------- storing page by page

  function Overlay(page: Page, off: nat, src: seq<Byte>): Page
    requires off + |src| <= PGSIZE
  {
    page[..off] + src + page[off + |src|..]
  }

  /** Page v with src laid over it at offset off. */
  function PutPage(pages: seq<PageView>, v: nat, off: nat, src: seq<Byte>): seq<PageView>
    requires v < |pages| && off + |src| <= PGSIZE
  {
    pages[v := pages[v].(bytes := Overlay(pages[v].bytes, off, src))]
  }

  lemma OverlayWritten(page: Page, base: nat, va: nat, src: seq<Byte>, m: nat, n: nat)
    requires m + n <= |src| && base <= va + m && va + m + n <= base + PGSIZE
    ensures Overlay(WrittenPage(page, base, va, src[..m]), va + m - base, src[m..m + n])
         == WrittenPage(page, base, va, src[..m + n])
  {
  }

  lemma UntouchedPage(page: Page, base: nat, va: nat, src: seq<Byte>, m: nat, n: nat)
    requires m + n <= |src| && (va + m + n <= base || base + PGSIZE <= va + m)
    ensures WrittenPage(page, base, va, src[..m]) == WrittenPage(page, base, va, src[..m + n])
  {
  }

  /** Writing the next n bytes of src, all in page v, with one overlay. */
  lemma WrittenChunk(pages: seq<PageView>, va: nat, src: seq<Byte>, m: nat, n: nat, v: nat)
    requires v < |pages| && m + n <= |src|
    requires v * PGSIZE <= va + m && va + m + n <= v * PGSIZE + PGSIZE
    ensures PutPage(Written(pages, va, src[..m]), v, va + m - v * PGSIZE, src[m..m + n])
         == Written(pages, va, src[..m + n])
  {
    var next := PutPage(Written(pages, va, src[..m]), v, va + m - v * PGSIZE, src[m..m + n]);
    forall u | 0 <= u < |pages| ensures next[u] == Written(pages, va, src[..m + n])[u] {
      if u == v {
        OverlayWritten(pages[v].bytes, v * PGSIZE, va, src, m, n);
      } else {
        UntouchedPage(pages[u].bytes, u * PGSIZE, va, src, m, n);
      }
    }
  }

  predicate Readable(pages: seq<PageView>, va: nat) {
    va / PGSIZE < |pages| && pages[va / PGSIZE].u
  }

  function ByteAt(pages: seq<PageView>, va: nat): Byte {
    if va / PGSIZE < |pages| then pages[va / PGSIZE].bytes[va % PGSIZE] else 0
  }

  function Bytes(pages: seq<PageView>, va: nat, n: nat): seq<Byte> {
    seq(n, i requires 0 <= i < n => ByteAt(pages, va + i))
  }

  lemma ReadChunk(pages: seq<PageView>, va: nat, m: nat, n: nat)
    requires Readable(pages, va + m) && (va + m) % PGSIZE + n <= PGSIZE
    ensures var o := (va + m) % PGSIZE;
            Bytes(pages, va, m + n) == Bytes(pages, va, m) + pages[(va + m) / PGSIZE].bytes[o..o + n]
    ensures forall a: nat :: va + m <= a < va + m + n ==> Readable(pages, a)
  {
    var v, o := (va + m) / PGSIZE, (va + m) % PGSIZE;
    var all := Bytes(pages, va, m + n);
    forall j | 0 <= j < m + n
      ensures all[j] == (Bytes(pages, va, m) + pages[v].bytes[o..o + n])[j]
    {
      assert all[j] == ByteAt(pages, va + j);
      if m <= j {
        assert (va + j) / PGSIZE == v && (va + j) % PGSIZE == o + j - m;
      } else {
        assert Bytes(pages, va, m)[j] == ByteAt(pages, va + j);
      }
    }
    forall a: nat | va + m <= a < va + m + n ensures Readable(pages, a) {
      assert a / PGSIZE == (va + m) / PGSIZE;
    }
  }

  /** One turn of the page-by-page loop extends the prefix that has been written. */
  lemma CopyoutStep(w: World, p: nat, va: nat, src: seq<Byte>, m: nat, n: nat)
    requires p in w && m + n <= |src| && (va + m) % PGSIZE + n <= PGSIZE
    requires MayStore(CopyoutUpTo(w, p, va, src, m)[p].pages, va + m)
    ensures var cur := CopyoutUpTo(w, p, va, src, m);
            cur[p := cur[p].(pages := PutPage(cur[p].pages, (va + m) / PGSIZE, (va + m) % PGSIZE, src[m..m + n]))]
            == CopyoutUpTo(w, p, va, src, m + n)
    ensures AllStorable(w[p].pages, va + m, n)
  {
    var v := (va + m) / PGSIZE;
    assert (va + m) % PGSIZE == va + m - v * PGSIZE;
    WrittenChunk(w[p].pages, va, src, m, n, v);
    forall a: nat | va + m <= a < va + m + n ensures MayStore(w[p].pages, a) {
      assert a / PGSIZE == v;
    }
  }

  lemma CopyoutStop(w: World, p: nat, va: nat, src: seq<Byte>, m: nat)
    requires p in w && m <= |src|
    ensures MayStore(CopyoutUpTo(w, p, va, src, m)[p].pages, va + m) <==> MayStore(w[p].pages, va + m)
  {
  }

  lemma CopyoutNothing(w: World, p: nat, va: nat, src: seq<Byte>)
    requires p in w
    ensures CopyoutUpTo(w, p, va, src, 0) == w
  {
    var pages := w[p].pages;
    forall v | 0 <= v < |pages| ensures Written(pages, va, src[..0])[v] == pages[v] {
      assert WrittenPage(pages[v].bytes, v * PGSIZE, va, src[..0]) == pages[v].bytes;
    }
    assert Written(pages, va, src[..0]) == pages;
  }

  predicate AllStorable(pages: seq<PageView>, va: nat, n: nat) {
    forall a: nat :: va <= a < va + n ==> MayStore(pages, a)
  }

  lemma {:induction false} StorableAtLeast(pages: seq<PageView>, va: nat, m: nat, n: nat)
    requires n <= m && AllStorable(pages, va, n)
    ensures Storable(pages, va, m) == n + Storable(pages, va + n, m - n)
    decreases n
  {
    if n > 0 {
      assert MayStore(pages, va);
      StorableAtLeast(pages, va + 1, m - 1, n - 1);
    }
  }

  // ------------------------------------------------- what each operation does to single bytes

  /** Address a lies in a page of process q. */
  predicate Has(w: World, q: nat, a: nat) {
    q in w && a / PGSIZE < |w[q].pages|
  }

  /** Process p keeps its size, its flag and the permissions of its pages; the others keep all. */
  ghost predicate SameShape(w: World, t: World, p: nat) {
    && p in w && t.Keys == w.Keys && (forall q :: q in w && q != p ==> t[q] == w[q])
    && t[p].sz == w[p].sz && t[p].killed == w[p].killed && |t[p].pages| == |w[p].pages|
    && forall v :: 0 <= v < |w[p].pages| ==> t[p].pages[v] == w[p].pages[v].(bytes := t[p].pages[v].bytes)
  }

  /** Byte i of page v of process p. */
  ghost predicate SameByte(w: World, t: World, p: nat, v: nat, i: nat) {
    p in w && p in t && v < |w[p].pages| && v < |t[p].pages| && i < PGSIZE ==>
      t[p].pages[v].bytes[i] == w[p].pages[v].bytes[i]
  }

  /** From w to t the byte of process p at va became b, and nothing else happened. */
  ghost predicate OneByte(w: World, t: World, p: nat, va: nat, b: Byte) {
    && SameShape(w, t, p) && va / PGSIZE < |t[p].pages| && t[p].pages[va / PGSIZE].bytes[va % PGSIZE] == b
    && forall v: nat, i: nat :: v != va / PGSIZE || i != va % PGSIZE ==> SameByte(w, t, p, v, i)
  }

  lemma StoreLaw(w: World, p: nat, va: nat, b: Byte)
    requires p in w
    ensures var v, t := va / PGSIZE, Store(w, p, va, b);
            if v < |w[p].pages| && w[p].pages[v].u && w[p].pages[v].w then OneByte(w, t, p, va, b)
            else t == w[p := w[p].(killed := true)]
  {
  }

  /** Byte i of page v of process p after n bytes of src went to va. */
  ghost predicate CopiedByte(w: World, t: World, p: nat, va: nat, src: seq<Byte>, n: nat, v: nat, i: nat) {
    p in w && p in t && v < |w[p].pages| && v < |t[p].pages| && i < PGSIZE && n <= |src| ==>
      var a := v * PGSIZE + i;
      t[p].pages[v].bytes[i] == if va <= a < va + n then src[a - va] else w[p].pages[v].bytes[i]
  }

  /** From w to t the first n bytes of src went to va, and nothing else happened. */
  ghost predicate SomeBytes(w: World, t: World, p: nat, va: nat, src: seq<Byte>, n: nat) {
    SameShape(w, t, p) && forall v: nat, i: nat :: CopiedByte(w, t, p, va, src, n, v, i)
  }

  lemma CopyoutLaw(w: World, p: nat, va: nat, src: seq<Byte>, n: nat)
    requires p in w && n <= |src|
    ensures SomeBytes(w, CopyoutUpTo(w, p, va, src, n), p, va, src, n)
  {
  }

  /** The bytes that can be stored end before the first page that is missing or not writable. */
  lemma {:induction false} StorableLaw(pages: seq<PageView>, va: nat, n: nat)
    ensures var k := Storable(pages, va, n);
            && (forall a: nat :: va <= a < va + k ==>
                  a / PGSIZE < |pages| && pages[a / PGSIZE].u && pages[a / PGSIZE].w)
            && (k < n ==> var v := (va + k) / PGSIZE; !(v < |pages| && pages[v].u && pages[v].w))
    decreases n
  {
    if n > 0 && MayStore(pages, va) { StorableLaw(pages, va + 1, n - 1); }
  }

  /** From w to t a process c like p was made, and nothing else happened. */
  ghost predicate CopyMade(w: World, t: World, p: nat, c: nat) {
    && p in w && c !in w && t.Keys == w.Keys + {c} && (forall q :: q in w ==> t[q] == w[q])
    && t[c].pages == w[p].pages && t[c].sz == w[p].sz && !t[c].killed
  }

  lemma ForkLaw(w: World, p: nat, c: nat)
    requires p in w && c !in w
    ensures CopyMade(w, Fork(w, p, c), p, c)
  {
  }

  /** From w to t process p got size sz: its pages are those up to the one that holds the last
      byte, the old ones as they were and the new ones zero. */
  ghost predicate Resized(w: World, t: World, p: nat, sz: nat) {
    && p in w && t.Keys == w.Keys && (forall q :: q in w && q != p ==> t[q] == w[q])
    && t[p].sz == sz && t[p].killed == w[p].killed && sz <= |t[p].pages| * PGSIZE < sz + PGSIZE
    && forall v :: 0 <= v < |t[p].pages| ==>
         t[p].pages[v] == if v < |w[p].pages| then w[p].pages[v] else PageView(seq(PGSIZE, _ => 0), true, true, false, true)
  }

  lemma GrowLaw(w: World, p: nat, n: nat)
    requires p in w && |w[p].pages| == Pages(w[p].sz)
    ensures Resized(w, Grow(w, p, n), p, w[p].sz + n)
  {
  }

  lemma ShrinkLaw(w: World, p: nat, n: nat)
    requires p in w && |w[p].pages| == Pages(w[p].sz)
    ensures if n > w[p].sz then Shrink(w, p, n) == w else Resized(w, Shrink(w, p, n), p, w[p].sz - n)
  {
  }

  lemma FirstPageLaw(src: seq<Byte>)
    requires |src| <= PGSIZE
    ensures var page := FirstPage(src);
            && page.r && page.w && page.x && page.u
            && forall i :: 0 <= i < PGSIZE ==> page.bytes[i] == if i < |src| then src[i] else 0
  {
  }
}

/**
 Copy-on-write address spaces: kernel/kalloc.c, the user half of kernel/vm.c and
 the copy-on-write path of kernel/trap.c.  `World()` is what the processes see;
 each operation is proved to change it exactly as eager copying would.
 */
module CopyOnWrite {
  import opened PhysicalPages
  import E = EagerCopy

  /** First virtual page number that user memory may not reach (TRAPFRAME). */
  const TRAPFRAME_VPN: nat := 0x3FFFFFE
  const MAXVA: nat := 0x40_0000_0000
  /** Pages between KERNBASE and PHYSTOP. */
  const MAXFRAMES: nat := 60 * 256

  datatype ProcInfo = ProcInfo(sz: nat, killed: bool)

  /** Result of a system call or of a store.  Panicked: copyout found no page to copy to.
      Stripped: a fault found none; the process goes on without the pages below. */
  datatype Outcome = Done | Failed | Killed | Panicked(stored: nat) | Stripped | Gave(bytes: seq<Byte>)

  /** How many page-table pages the mapping of each page takes. */
  type Tables = map<nat, nat>

  function At(need: Tables, v: nat): nat {
    if v in need then need[v] else 0
  }

  /** The page-table pages that mapping pages lo..hi takes. */
  function Total(need: Tables, lo: nat, hi: nat): nat
    decreases hi
  {
    if hi <= lo then 0 else Total(need, lo, hi - 1) + At(need, hi - 1)
  }

  lemma {:induction false} TotalGrows(need: Tables, lo: nat, mid: nat, hi: nat)
    requires mid <= hi
    ensures Total(need, lo, mid) <= Total(need, lo, hi)
    decreases hi
  {
    if mid < hi { TotalGrows(need, lo, mid, hi - 1); }
  }

  /** The pages a fork takes: those of allocproc and the tables for each page of the parent. */
  function ForkNeeds(sz: nat, need0: nat, need: Tables): nat {
    need0 + Total(need, 0, E.Pages(sz))
  }

  /** The pages a growth by n bytes takes. */
  function GrowNeeds(sz: nat, n: nat, need: Tables): nat {
    Cost(need, E.Pages(sz), E.Pages(sz + n))
  }

  /** The pages lo..hi and their tables. */
  function Cost(need: Tables, lo: nat, hi: nat): nat {
    if hi <= lo then 0 else hi - lo + Total(need, lo, hi)
  }

  lemma CostStep(need: Tables, lo: nat, v: nat, hi: nat)
    requires lo <= v < hi
    ensures Cost(need, lo, v + 1) == Cost(need, lo, v) + 1 + At(need, v) <= Cost(need, lo, hi)
  {
    TotalGrows(need, lo, v + 1, hi);
  }

  /** What the processes can ask for.  `need` says how many page-table pages each new
      mapping takes, which decides when a fork or a growth runs out of memory. */
  datatype Op =
    | Fork(p: nat, c: nat, need0: nat, need: Tables)
    | Store(p: nat, va: nat, b: Byte)
    | Copyout(p: nat, va: nat, src: seq<Byte>)
    | Copyin(p: nat, va: nat, n: nat)
    | Grow(p: nat, n: nat, need: Tables)
    | Shrink(p: nat, n: nat)
    | Reap(p: nat)

  predicate Applicable(w: E.World, op: Op) {
    op.p in w && (op.Fork? ==> op.c !in w) && (op.Reap? || !w[op.p].killed)
  }

  /** The step of the eager system that ends with outcome o. */
  function EagerStep(w: E.World, op: Op, o: Outcome): E.World {
    if !Applicable(w, op) then w else
    match op
    case Fork(p, c, _, _) => if o == Done then E.Fork(w, p, c) else w
    case Store(p, va, b) => if o == Stripped then w else E.Store(w, p, va, b)
    case Copyout(p, va, src) =>
      if o.Panicked? && o.stored <= |src| then E.CopyoutUpTo(w, p, va, src, o.stored)
      else E.Copyout(w, p, va, src)
    case Copyin(_, _, _) => w
    case Grow(p, n, _) => if o == Done then E.Grow(w, p, n) else w
    case Shrink(p, n) => E.Shrink(w, p, n)
    case Reap(p) => w - {p}
  }

  /** The pages that n bytes from va touch. */
  function Touched(va: nat, n: nat): nat {
    if n == 0 then 0 else (va + n - 1) / PGSIZE - va / PGSIZE + 1
  }

  /** The process may read the n bytes from va. */
  predicate AllReadable(pages: seq<PageView>, va: nat, n: nat) {
    forall a: nat :: va <= a < va + n ==> a / PGSIZE < |pages| && pages[a / PGSIZE].u
  }

  /** They are what a copyin hands over. */
  predicate Delivers(pages: seq<PageView>, va: nat, n: nat, o: Outcome) {
    && o.Gave? && |o.bytes| == n && AllReadable(pages, va, n)
    && forall i :: 0 <= i < n ==>
         (va + i) / PGSIZE < |pages| && o.bytes[i] == pages[(va + i) / PGSIZE].bytes[(va + i) % PGSIZE]
  }

  lemma BytesLaw(pages: seq<PageView>, va: nat, n: nat)
    requires AllReadable(pages, va, n)
    ensures Delivers(pages, va, n, Gave(E.Bytes(pages, va, n)))
  {
    var all := E.Bytes(pages, va, n);
    forall i | 0 <= i < n
      ensures (va + i) / PGSIZE < |pages| && all[i] == pages[(va + i) / PGSIZE].bytes[(va + i) % PGSIZE]
    {
      assert E.Readable(pages, va + i) && all[i] == E.ByteAt(pages, va + i);
    }
  }

  /** The outcomes with `before` free pages at the start, and how many are left at the end.  A
      fork or a growth fails exactly for lack of memory, and the others stop only without any.
      A growth that fails leaves the page tables it made. */
  predicate Allowed(w: E.World, before: nat, after: nat, op: Op, o: Outcome) {
    if !Applicable(w, op) then o == Failed && after == before else
    match op
    case Fork(p, _, need0, need) =>
      var cost := ForkNeeds(w[p].sz, need0, need);
      if cost <= before then o == Done && after == before - cost else o == Failed && after == before
    case Store(p, va, b) =>
      if o == Stripped then before == 0
      else after <= before <= after + 1 && o == if E.MayStore(w[p].pages, va) then Done else Killed
    case Copyout(p, va, src) =>
      var n := E.Storable(w[p].pages, va, |src|);
      && after <= before <= after + Touched(va, |src|)
      && if o.Panicked? then o.stored < n && after == 0 && before < Touched(va, |src|) else o == if n == |src| then Done else Failed
    case Copyin(p, va, n) =>
      after == before && if o == Failed then !AllReadable(w[p].pages, va, n) else Delivers(w[p].pages, va, n, o)
    case Grow(p, n, need) =>
      var lo, hi, cost := E.Pages(w[p].sz), E.Pages(w[p].sz + n), GrowNeeds(w[p].sz, n, need);
      if cost <= before then o == Done && after == before - cost
      else o == Failed && before <= after + Total(need, lo, hi)
    case Shrink(p, n) => o == Done && before <= after <= before + |w[p].pages|
    case Reap(_) => o == Done && before <= after
  }

  /** The world and the number of free pages. */
  datatype Moment = Moment(world: E.World, free: nat)

  ghost predicate StepAt(ops: seq<Op>, outs: seq<Outcome>, trail: seq<Moment>, i: nat) {
    i < |ops| && i < |outs| && i + 1 < |trail| ==>
      && Allowed(trail[i].world, trail[i].free, trail[i + 1].free, ops[i], outs[i])
      && trail[i + 1].world == EagerStep(trail[i].world, ops[i], outs[i])
  }

  /** A run of the eager system from trail[0]; each world and each count of free pages follows
      from the one before. */
  ghost predicate History(ops: seq<Op>, outs: seq<Outcome>, trail: seq<Moment>) {
    |outs| <= |ops| && |trail| == |outs| + 1 && forall i: nat :: StepAt(ops, outs, trail, i)
  }

  lemma HistoryOn(ops: seq<Op>, outs: seq<Outcome>, trail: seq<Moment>, o: Outcome, after: nat)
    requires History(ops, outs, trail) && |outs| < |ops|
    requires Allowed(trail[|outs|].world, trail[|outs|].free, after, ops[|outs|], o)
    ensures History(ops, outs + [o], trail + [Moment(EagerStep(trail[|outs|].world, ops[|outs|], o), after)])
  {
    var more, long := outs + [o], trail + [Moment(EagerStep(trail[|outs|].world, ops[|outs|], o), after)];
    forall i: nat ensures StepAt(ops, more, long, i) { assert StepAt(ops, outs, trail, i); }
  }

  // ------------------------------------------------- runs that have enough memory

  /** The free pages an operation may take. */
  function Needs(w: E.World, op: Op): nat {
    if !Applicable(w, op) then 0 else
    match op
    case Fork(p, _, need0, need) => ForkNeeds(w[p].sz, need0, need)
    case Store(_, _, _) => 1
    case Copyout(_, va, src) => Touched(va, |src|)
    case Copyin(_, _, _) => 0
    case Grow(p, n, need) => GrowNeeds(w[p].sz, n, need)
    case Shrink(_, _) => 0
    case Reap(_) => 0
  }

  function NeedsUpTo(ops: seq<Op>, trail: seq<Moment>, i: nat): nat
    requires i <= |ops| && i <= |trail|
  {
    if i == 0 then 0 else NeedsUpTo(ops, trail, i - 1) + Needs(trail[i - 1].world, ops[i - 1])
  }

  /** What the operation ends with on a machine without limits. */
  function Plenty(w: E.World, op: Op): Outcome {
    if !Applicable(w, op) then Failed else
    match op
    case Store(p, va, _) => if E.MayStore(w[p].pages, va) then Done else Killed
    case Copyout(p, va, src) => if E.Storable(w[p].pages, va, |src|) == |src| then Done else Failed
    case Copyin(p, va, n) => if AllReadable(w[p].pages, va, n) then Gave(E.Bytes(w[p].pages, va, n)) else Failed
    case Fork(_, _, _, _) => Done
    case Grow(_, _, _) => Done
    case Shrink(_, _) => Done
    case Reap(_) => Done
  }

  lemma PlentyStep(w: E.World, before: nat, after: nat, op: Op, o: Outcome)
    requires Allowed(w, before, after, op, o) && Needs(w, op) <= before
    ensures o == Plenty(w, op)
    ensures before <= after + Needs(w, op)
  {
    if Applicable(w, op) && op.Copyin? && o != Failed {
      BytesLaw(w[op.p].pages, op.va, op.n);
      assert o.bytes == E.Bytes(w[op.p].pages, op.va, op.n);
    }
    if Applicable(w, op) && op.Grow? { TotalCost(op.need, E.Pages(w[op.p].sz), E.Pages(w[op.p].sz + op.n)); }
  }

  lemma TotalCost(need: Tables, lo: nat, hi: nat)
    ensures Total(need, lo, hi) <= Cost(need, lo, hi)
  {
  }

  /** As long as the free pages at the start cover what the operations take together, every
      one of them ends as on a machine without limits. */
  lemma {:induction false} EnoughMemory(ops: seq<Op>, outs: seq<Outcome>, trail: seq<Moment>, i: nat)
    requires History(ops, outs, trail) && i < |outs| && NeedsUpTo(ops, trail, i + 1) <= trail[0].free
    ensures outs[i] == Plenty(trail[i].world, ops[i])
    ensures trail[0].free <= trail[i + 1].free + NeedsUpTo(ops, trail, i + 1)
  {
    if i > 0 { EnoughMemory(ops, outs, trail, i - 1); }
    assert StepAt(ops, outs, trail, i);
    PlentyStep(trail[i].world, trail[i].free, trail[i + 1].free, ops[i], outs[i]);
  }

  /** A run whose operations fit in memory together completes. */
  lemma Completes(ops: seq<Op>, outs: seq<Outcome>, trail: seq<Moment>)
    requires History(ops, outs, trail) && (|outs| < |ops| ==> outs != [] && Stops(outs[|outs| - 1]))
    requires NeedsUpTo(ops, trail, |outs|) <= trail[0].free
    ensures |outs| == |ops|
  {
    if outs != [] { EnoughMemory(ops, outs, trail, |outs| - 1); }
  }

  // ------------------------------------------------- what the steps mean

  /** Every process has the pages its size asks for. */
  ghost predicate Sized(w: E.World) {
    forall p :: p in w ==> |w[p].pages| == E.Pages(w[p].sz)
  }

  lemma SizedStep(w: E.World, op: Op, o: Outcome)
    requires Sized(w)
    ensures Sized(EagerStep(w, op, o))
  {
  }

  /** An operation that runs to its outcome takes the processes from w to t. */
  ghost predicate Means(w: E.World, op: Op, o: Outcome, t: E.World) {
    if !(op.p in w && (op.Fork? ==> op.c !in w) && (op.Reap? || !w[op.p].killed)) then t == w else
    match op
    case Fork(p, c, _, _) => if o == Done then E.CopyMade(w, t, p, c) else t == w
    case Store(p, va, b) =>
      if o == Done then E.OneByte(w, t, p, va, b)
      else if o == Killed then t == w[p := w[p].(killed := true)] else o == Stripped && t == w
    case Copyout(p, va, src) =>
      E.SomeBytes(w, t, p, va, src, if o.Panicked? then o.stored else E.Storable(w[p].pages, va, |src|))
    case Copyin(_, _, _) => t == w
    case Grow(p, n, _) => if o == Done then E.Resized(w, t, p, w[p].sz + n) else t == w
    case Shrink(p, n) => if n > w[p].sz then t == w else E.Resized(w, t, p, w[p].sz - n)
    case Reap(p) => t.Keys == w.Keys - {p} && forall q :: q in t ==> t[q] == w[q]
  }

  lemma StepMeans(w: E.World, before: nat, after: nat, op: Op, o: Outcome)
    requires Sized(w) && Allowed(w, before, after, op, o)
    ensures Means(w, op, o, EagerStep(w, op, o))
  {
    if Applicable(w, op) {
      match op
      case Fork(p, c, _, _) => E.ForkLaw(w, p, c);
      case Store(p, va, b) => E.StoreLaw(w, p, va, b);
      case Copyout(p, va, src) =>
        E.CopyoutLaw(w, p, va, src, if o.Panicked? then o.stored else E.Storable(w[p].pages, va, |src|));
      case Copyin(_, _, _) =>
      case Grow(p, n, _) => E.GrowLaw(w, p, n);
      case Shrink(p, n) => E.ShrinkLaw(w, p, n);
      case Reap(_) =>
    }
  }

  lemma {:induction false} SizedAt(ops: seq<Op>, outs: seq<Outcome>, trail: seq<Moment>, i: nat)
    requires History(ops, outs, trail) && i <= |outs| && Sized(trail[0].world)
    ensures Sized(trail[i].world)
  {
    if i > 0 {
      SizedAt(ops, outs, trail, i - 1);
      assert StepAt(ops, outs, trail, i - 1);
      SizedStep(trail[i - 1].world, ops[i - 1], outs[i - 1]);
    }
  }

  /** In every run each operation does to single bytes, sizes and permissions what it is for. */
  lemma RunMeans(ops: seq<Op>, outs: seq<Outcome>, trail: seq<Moment>, i: nat)
    requires History(ops, outs, trail) && i < |outs| && Sized(trail[0].world)
    ensures Sized(trail[i].world) && Means(trail[i].world, ops[i], outs[i], trail[i + 1].world)
  {
    SizedAt(ops, outs, trail, i);
    assert StepAt(ops, outs, trail, i);
    StepMeans(trail[i].world, trail[i].free, trail[i + 1].free, ops[i], outs[i]);
  }

  // ------------------------------------------------- what was stored stays

  /** The operation may change what process p finds at address a. */
  predicate Touches(op: Op, p: nat, a: nat) {
    && op.p == p
    && match op
       case Store(_, va, _) => va == a
       case Copyout(_, va, src) => va <= a < va + |src|
       case Shrink(_, _) => true
       case Reap(_) => true
       case Fork(_, _, _, _) => false
       case Copyin(_, _, _) => false
       case Grow(_, _, _) => false
  }

  lemma UntouchedStep(w: E.World, op: Op, o: Outcome, p: nat, a: nat)
    requires E.Has(w, p, a) && !Touches(op, p, a)
    ensures var t, v := EagerStep(w, op, o), a / PGSIZE;
            E.Has(t, p, a) && t[p].pages[v].bytes[a % PGSIZE] == w[p].pages[v].bytes[a % PGSIZE] && t[p].pages[v].u == w[p].pages[v].u
  {
    if op.p == p && Applicable(w, op) {
      if op.Store? { E.StoreLaw(w, p, op.va, op.b); }
      if op.Copyout? {
        var n := if o.Panicked? && o.stored <= |op.src| then o.stored else E.Storable(w[p].pages, op.va, |op.src|);
        E.CopyoutLaw(w, p, op.va, op.src, n);
        assert E.CopiedByte(w, EagerStep(w, op, o), p, op.va, op.src, n, a / PGSIZE, a % PGSIZE);
      }
    }
  }

  /** What process p finds at a changes only by its own stores, copyouts and shrinking: no other
      process and no fork reaches it. */
  lemma {:induction false} Untouched(ops: seq<Op>, outs: seq<Outcome>, trail: seq<Moment>, i: nat, j: nat, p: nat, a: nat)
    requires History(ops, outs, trail) && i <= j <= |outs| && E.Has(trail[i].world, p, a)
    requires forall k :: i <= k < j ==> !Touches(ops[k], p, a)
    ensures E.Has(trail[j].world, p, a)
    ensures var x, y, v := trail[i].world[p].pages, trail[j].world[p].pages, a / PGSIZE;
            y[v].bytes[a % PGSIZE] == x[v].bytes[a % PGSIZE] && y[v].u == x[v].u
    decreases j
  {
    if i < j {
      Untouched(ops, outs, trail, i, j - 1, p, a);
      assert StepAt(ops, outs, trail, j - 1);
      UntouchedStep(trail[j - 1].world, ops[j - 1], outs[j - 1], p, a);
    }
  }

  /** A read gives the byte last stored there. */
  lemma StoreThenRead(ops: seq<Op>, outs: seq<Outcome>, trail: seq<Moment>, i: nat, j: nat, p: nat, va: nat, b: Byte)
    requires History(ops, outs, trail) && i < j < |outs|
    requires ops[i] == Store(p, va, b) && outs[i] == Done && ops[j] == Copyin(p, va, 1)
    requires forall k :: i < k < j ==> !Touches(ops[k], p, va)
    ensures p in trail[j].world && outs[j] == if trail[j].world[p].killed then Failed else Gave([b])
  {
    var w := trail[i].world;
    assert StepAt(ops, outs, trail, i) && StepAt(ops, outs, trail, j);
    assert Applicable(w, ops[i]);
    E.StoreLaw(w, p, va, b);
    Untouched(ops, outs, trail, i + 1, j, p, va);
    ReadsOne(trail[j].world, trail[j].free, trail[j + 1].free, p, va, outs[j]);
  }

  /** A read gives the byte last copied out there. */
  lemma CopyoutThenRead(ops: seq<Op>, outs: seq<Outcome>, trail: seq<Moment>, i: nat, j: nat, p: nat, a: nat)
    requires History(ops, outs, trail) && i < j < |outs| && ops[i].Copyout? && ops[i].p == p && outs[i] == Done
    requires ops[i].va <= a < ops[i].va + |ops[i].src| && ops[j] == Copyin(p, a, 1)
    requires forall k :: i < k < j ==> !Touches(ops[k], p, a)
    ensures p in trail[j].world
    ensures outs[j] == if trail[j].world[p].killed then Failed else Gave([ops[i].src[a - ops[i].va]])
  {
    assert StepAt(ops, outs, trail, i) && StepAt(ops, outs, trail, j);
    CopyoutLands(trail[i].world, trail[i].free, trail[i + 1].free, ops[i], a);
    Untouched(ops, outs, trail, i + 1, j, p, a);
    ReadsOne(trail[j].world, trail[j].free, trail[j + 1].free, p, a, outs[j]);
  }

  /** Where the bytes of a copyout are. */
  lemma CopyoutLands(w: E.World, before: nat, after: nat, op: Op, a: nat)
    requires op.Copyout? && Allowed(w, before, after, op, Done) && op.va <= a < op.va + |op.src|
    ensures var t, v := EagerStep(w, op, Done), a / PGSIZE;
            E.Has(t, op.p, a) && t[op.p].pages[v].u && t[op.p].pages[v].bytes[a % PGSIZE] == op.src[a - op.va]
  {
    var p, va, src := op.p, op.va, op.src;
    E.StorableLaw(w[p].pages, va, |src|);
    E.CopyoutLaw(w, p, va, src, |src|);
    assert E.CopiedByte(w, EagerStep(w, op, Done), p, va, src, |src|, a / PGSIZE, a % PGSIZE);
  }

  lemma ReadsOne(w: E.World, before: nat, after: nat, p: nat, a: nat, o: Outcome)
    requires Allowed(w, before, after, Copyin(p, a, 1), o) && E.Has(w, p, a) && w[p].pages[a / PGSIZE].u
    ensures o == if w[p].killed then Failed else Gave([w[p].pages[a / PGSIZE].bytes[a % PGSIZE]])
  {
    if !w[p].killed {
      assert AllReadable(w[p].pages, a, 1);
      assert o.bytes == [w[p].pages[(a + 0) / PGSIZE].bytes[(a + 0) % PGSIZE]];
    }
  }

  /** A child finds what its parent had at the fork, whatever the parent does after it. */
  lemma ForkThenRead(ops: seq<Op>, outs: seq<Outcome>, trail: seq<Moment>, i: nat, j: nat, p: nat, c: nat, a: nat)
    requires History(ops, outs, trail) && i < j < |outs|
    requires ops[i].Fork? && ops[i].p == p && ops[i].c == c && outs[i] == Done && ops[j] == Copyin(c, a, 1)
    requires E.Has(trail[i].world, p, a) && trail[i].world[p].pages[a / PGSIZE].u
    requires forall k :: i < k < j ==> !Touches(ops[k], c, a)
    ensures c in trail[j].world
    ensures outs[j] == if trail[j].world[c].killed then Failed
                       else Gave([trail[i].world[p].pages[a / PGSIZE].bytes[a % PGSIZE]])
  {
    assert StepAt(ops, outs, trail, i) && StepAt(ops, outs, trail, j);
    E.ForkLaw(trail[i].world, p, c);
    Untouched(ops, outs, trail, i + 1, j, c, a);
    ReadsOne(trail[j].world, trail[j].free, trail[j + 1].free, c, a, outs[j]);
  }

  /** The outcomes after which the machine does not go on. */
  predicate Stops(o: Outcome) {
    o.Panicked? || o == Stripped
  }

  /** Two entries name the same page. */
  predicate Shared(pt: map<Key, Pte>, j: Key, k: Key) {
    j in pt && k in pt && pt[j].frame == pt[k].frame
  }

  /** Page k of the world w, after process p has lost its pages below v. */
  ghost predicate LostAt(w: E.World, t: Sys, p: nat, v: nat, k: Key) {
    if k.pid in w && k.vpn < |w[k.pid].pages| && !(k.pid == p && k.vpn < v)
    then k in t.pt && Look(t, k) == w[k.pid].pages[k.vpn]
    else k !in t.pt
  }

  /** Every process sees what it saw in w, but p has lost its pages below v. */
  ghost predicate Lost(w: E.World, procs: map<nat, ProcInfo>, t: Sys, p: nat, v: nat) {
    && Inv(t) && procs.Keys == w.Keys
    && (forall q :: q in procs ==> procs[q].sz == w[q].sz && procs[q].killed == w[q].killed)
    && forall k :: LostAt(w, t, p, v, k)
  }

  lemma UnmappedLost(procs: map<nat, ProcInfo>, s: Sys, t: Sys, p: nat, v: nat)
    requires Shape(procs, s) && Inv(t) && Unmapped(s, t, p, 0, v)
    ensures Lost(WorldOf(procs, s), procs, t, p, v)
  {
    var w := WorldOf(procs, s);
    forall k ensures LostAt(w, t, p, v, k) {
      assert LaidOut(procs, s.pt, k) && UnmappedAt(s, t, p, 0, v, k);
      assert k == Key(k.pid, k.vpn);
    }
  }

  /** A process that lost a page no longer has the pages its size says. */
  lemma LostIsNotLaidOut(w: E.World, procs: map<nat, ProcInfo>, t: Sys, p: nat, v: nat)
    requires Lost(w, procs, t, p, v) && p in procs && 0 < v < E.Pages(procs[p].sz)
    ensures !Shape(procs, t)
  {
    assert LostAt(w, t, p, v, Key(p, 0));
    assert Shape(procs, t) ==> LaidOut(procs, t.pt, Key(p, 0));
  }

  /** A process never maps the same page twice. */
  ghost predicate InjectiveAt(pt: map<Key, Pte>, j: Key, k: Key) {
    j in pt && k in pt && j != k && j.pid == k.pid ==> pt[j].frame != pt[k].frame
  }

  ghost predicate Injective(pt: map<Key, Pte>) {
    forall j, k :: InjectiveAt(pt, j, k)
  }

  /** Every process maps exactly the pages below its size. */
  ghost predicate LaidOut(procs: map<nat, ProcInfo>, pt: map<Key, Pte>, k: Key) {
    k in pt <==> k.pid in procs && k.vpn < E.Pages(procs[k.pid].sz)
  }

  ghost predicate Shape(procs: map<nat, ProcInfo>, s: Sys) {
    && (forall k :: LaidOut(procs, s.pt, k))
    && (forall p :: p in procs ==> E.Pages(procs[p].sz) < TRAPFRAME_VPN)
    && (forall f :: f in s.owner && s.owner[f].Process? ==> s.owner[f].pid in procs)
    && Injective(s.pt)
    && |s.cnt| <= MAXFRAMES
  }

  ghost function ViewPages(s: Sys, p: nat, n: nat): seq<PageView> {
    seq(n, v requires 0 <= v < n => Look(s, Key(p, v)))
  }

  /** What the processes see. */
  ghost function WorldOf(procs: map<nat, ProcInfo>, s: Sys): E.World {
    map p | p in procs ::
      E.Proc(ViewPages(s, p, E.Pages(procs[p].sz)), procs[p].sz, procs[p].killed)
  }

  lemma ViewSame(s: Sys, t: Sys, p: nat, n: nat)
    requires SameLooks(s, t)
    requires forall v: nat :: v < n ==> Key(p, v) in s.pt && Key(p, v) in t.pt
    ensures ViewPages(t, p, n) == ViewPages(s, p, n)
  {
    forall v | 0 <= v < n ensures Look(t, Key(p, v)) == Look(s, Key(p, v)) {
      assert SameAt(s, t, Key(p, v));
    }
  }

  lemma WorldSame(procs: map<nat, ProcInfo>, s: Sys, t: Sys)
    requires SameLooks(s, t) && Shape(procs, s) && Shape(procs, t)
    ensures WorldOf(procs, t) == WorldOf(procs, s)
  {
    forall p | p in procs
      ensures ViewPages(t, p, E.Pages(procs[p].sz)) == ViewPages(s, p, E.Pages(procs[p].sz))
    {
      var n := E.Pages(procs[p].sz);
      forall v: nat | v < n ensures Key(p, v) in s.pt && Key(p, v) in t.pt {
        assert LaidOut(procs, s.pt, Key(p, v)) && LaidOut(procs, t.pt, Key(p, v));
      }
      ViewSame(s, t, p, n);
    }
  }

  lemma LaidKeys(procs: map<nat, ProcInfo>, s: Sys, p: nat)
    requires Shape(procs, s) && p in procs
    ensures forall v: nat :: Key(p, v) in s.pt <==> v < E.Pages(procs[p].sz)
  {
    forall v: nat ensures Key(p, v) in s.pt <==> v < E.Pages(procs[p].sz) { assert LaidOut(procs, s.pt, Key(p, v)); }
  }

  /** Frames of the first n pages of p. */
  ghost function Frames(pt: map<Key, Pte>, p: nat, n: nat): set<nat>
    requires forall v: nat :: v < n ==> Key(p, v) in pt
  {
    set v: nat | v < n :: pt[Key(p, v)].frame
  }

  lemma {:induction false} FramesCard(pt: map<Key, Pte>, p: nat, n: nat)
    requires Injective(pt) && forall v: nat :: v < n ==> Key(p, v) in pt
    ensures |Frames(pt, p, n)| == n
  {
    if n > 0 {
      FramesCard(pt, p, n - 1);
      assert Frames(pt, p, n) == Frames(pt, p, n - 1) + {pt[Key(p, n - 1)].frame};
      forall v: nat | v < n - 1 ensures pt[Key(p, v)].frame != pt[Key(p, n - 1)].frame {
        assert InjectiveAt(pt, Key(p, v), Key(p, n - 1));
      }
    }
  }

  lemma {:induction false} BoundedCard(fs: set<nat>, n: nat)
    requires forall f :: f in fs ==> f < n
    ensures |fs| <= n
  {
    if n == 0 {
      assert fs == {};
    } else {
      BoundedCard(fs - {n - 1}, n - 1);
    }
  }

  /** A process maps fewer pages than there are frames whenever one frame is not its own. */
  lemma SizeBound(s: Sys, p: nat, n: nat, f: nat)
    requires Inv(s) && Injective(s.pt) && f in s.owner
    requires forall v: nat :: v < n ==> Key(p, v) in s.pt
    ensures n < |s.cnt|
  {
    var fs := Frames(s.pt, p, n);
    FramesCard(s.pt, p, n);
    forall v: nat | v < n ensures s.pt[Key(p, v)].frame != f {
      OwnedIsUnmapped(s, f, Key(p, v));
    }
    assert f !in fs;
    BoundedCard(fs + {f}, |s.cnt|);
  }

  // ------------------------------------------------- what the loops of vm.c keep

  /** The kernel pages of s are those of t, plus some charged to process h. */
  ghost predicate Charged(s: map<nat, Holder>, t: map<nat, Holder>, h: nat) {
    && (forall f :: f in s ==> f in t && t[f] == s[f])
    && (forall f :: f in t && f !in s ==> t[f] == Process(h))
  }

  lemma ChargedTrans(s: map<nat, Holder>, t: map<nat, Holder>, u: map<nat, Holder>, h: nat)
    requires Charged(s, t, h) && Charged(t, u, h)
    ensures Charged(s, u, h)
  {
  }

  /** From s to t process p got pages lo..v, and kernel pages were charged to it. */
  ghost predicate Partly(s: Sys, t: Sys, p: nat, lo: nat, v: nat) {
    && Inv(t) && |t.cnt| == |s.cnt| && Injective(t.pt) && Charged(s.owner, t.owner, p)
    && Grown(s, t, p, lo, v, E.ZERO_PAGE)
  }

  /** From s to t n pages were charged to process h, and nothing else. */
  ghost predicate Walked(s: Sys, t: Sys, h: nat, n: nat) {
    && Inv(t) && t.pt == s.pt && |t.cnt| == |s.cnt| && SameLooks(s, t) && Charged(s.owner, t.owner, h)
    && (forall f :: f in s.owner && f < |s.mem| ==> f < |t.mem| && t.mem[f] == s.mem[f])
    && |t.free| + n == |s.free|
  }

  lemma WalkedTrans(s: Sys, t: Sys, u: Sys, h: nat, m: nat, n: nat)
    requires InRam(s) && Walked(s, t, h, m) && Walked(t, u, h, n)
    ensures Walked(s, u, h, m + n)
  {
    SameTrans(s, t, u);
    ChargedTrans(s.owner, t.owner, u.owner, h);
  }

  /** From s to t pages lo..hi of process p were unmapped, and nothing else. */
  ghost predicate UnmappedAt(s: Sys, t: Sys, p: nat, lo: nat, hi: nat, k: Key) {
    && (k in t.pt <==> k in s.pt && !(k.pid == p && lo <= k.vpn < hi))
    && (k in t.pt ==> t.pt[k] == s.pt[k] && Look(t, k) == Look(s, k))
  }

  ghost predicate Unmapped(s: Sys, t: Sys, p: nat, lo: nat, hi: nat) {
    forall k :: UnmappedAt(s, t, p, lo, hi, k)
  }

  lemma UnmappedStep(s: Sys, t: Sys, p: nat, lo: nat, v: nat)
    requires Inv(t) && Unmapped(s, t, p, lo, v) && lo <= v && Key(p, v) in t.pt
    ensures Unmapped(s, Unmap(t, Key(p, v)), p, lo, v + 1)
  {
    UnmapKeeps(t, Key(p, v));
    var u := Unmap(t, Key(p, v));
    var next := v + 1;
    forall k ensures UnmappedAt(s, u, p, lo, next, k) {
      assert UnmappedAt(s, t, p, lo, v, k) && SameAt(t, u, k);
    }
  }

  /** From s to t the first n pages of p were shared with c. */
  ghost predicate CopiedAt(s: Sys, t: Sys, p: nat, c: nat, n: nat, k: Key) {
    && (k in t.pt <==> k in s.pt || (k.pid == c && k.vpn < n))
    && (k in s.pt ==> t.pt[k].frame == s.pt[k].frame && Look(t, k) == Look(s, k))
    && (k.pid == c && k.vpn < n ==>
          var from := Key(p, k.vpn);
          from in s.pt && t.pt[k].frame == s.pt[from].frame && Look(t, k) == Look(s, from))
  }

  ghost predicate Copied(s: Sys, t: Sys, p: nat, c: nat, n: nat) {
    forall k :: CopiedAt(s, t, p, c, n, k)
  }

  lemma CopiedThen(s: Sys, t: Sys, u: Sys, p: nat, c: nat, n: nat)
    requires Copied(s, t, p, c, n) && SameLooks(t, u) && u.pt.Keys == t.pt.Keys
    requires forall k :: k in t.pt ==> u.pt[k].frame == t.pt[k].frame
    ensures Copied(s, u, p, c, n)
  {
    forall k ensures CopiedAt(s, u, p, c, n, k) {
      assert CopiedAt(s, t, p, c, n, k) && SameAt(t, u, k);
      assert k in u.pt.Keys <==> k in t.pt.Keys;
    }
  }

  lemma CopiedShare(s: Sys, t: Sys, p: nat, c: nat, n: nat)
    requires Inv(t) && Copied(s, t, p, c, n) && Key(p, n) in s.pt && Key(p, n) in t.pt
    requires forall k :: k in s.pt ==> k.pid != c
    requires !t.pt[Key(p, n)].w
    ensures Copied(s, Share(t, Key(p, n), Key(c, n)), p, c, n + 1)
  {
    var from := Key(p, n);
    var u := Share(t, from, Key(c, n));
    assert CopiedAt(s, t, p, c, n, from) && CopiedAt(s, t, p, c, n, Key(c, n));
    ShareKeeps(t, from, Key(c, n));
    var next := n + 1;
    forall k ensures CopiedAt(s, u, p, c, next, k) {
      assert CopiedAt(s, t, p, c, n, k) && SameAt(t, u, k);
    }
  }

  lemma CopiedUndo(s: Sys, t: Sys, u: Sys, p: nat, c: nat, n: nat)
    requires Copied(s, t, p, c, n) && Unmapped(t, u, c, 0, n)
    requires forall k :: k in s.pt ==> k.pid != c
    ensures Copied(s, u, p, c, 0)
  {
    forall k ensures CopiedAt(s, u, p, c, 0, k) {
      assert CopiedAt(s, t, p, c, n, k) && UnmappedAt(t, u, c, 0, n, k);
    }
  }

  lemma CopiedInjective(s: Sys, t: Sys, p: nat, c: nat, n: nat)
    requires Copied(s, t, p, c, n) && Injective(s.pt)
    requires forall k :: k in s.pt ==> k.pid != c
    ensures Injective(t.pt)
  {
    forall j, k ensures InjectiveAt(t.pt, j, k) {
      assert CopiedAt(s, t, p, c, n, j) && CopiedAt(s, t, p, c, n, k);
      assert InjectiveAt(s.pt, j, k);
      assert InjectiveAt(s.pt, Key(p, j.vpn), Key(p, k.vpn));
    }
  }

  /** A completed uvmcopy is an eager copy of the whole process. */
  lemma ForkedWorld(procs: map<nat, ProcInfo>, s: Sys, t: Sys, p: nat, c: nat)
    requires Shape(procs, s) && p in procs && c !in procs && |t.cnt| == |s.cnt|
    requires Copied(s, t, p, c, E.Pages(procs[p].sz)) && Charged(s.owner, t.owner, c)
    ensures var more := procs[c := ProcInfo(procs[p].sz, false)];
            Shape(more, t) && WorldOf(more, t) == E.Fork(WorldOf(procs, s), p, c)
  {
    var n := E.Pages(procs[p].sz);
    var more := procs[c := ProcInfo(procs[p].sz, false)];
    forall k ensures LaidOut(more, t.pt, k) {
      assert LaidOut(procs, s.pt, k) && CopiedAt(s, t, p, c, n, k);
    }
    forall k | k in s.pt ensures k.pid != c {
      assert LaidOut(procs, s.pt, k);
    }
    CopiedInjective(s, t, p, c, n);
    forall q | q in more
      ensures var m := E.Pages(more[q].sz);
              ViewPages(t, q, m) == ViewPages(s, if q == c then p else q, m)
    {
      forall v | 0 <= v < E.Pages(more[q].sz)
        ensures Look(t, Key(q, v)) == Look(s, Key(if q == c then p else q, v))
      {
        assert CopiedAt(s, t, p, c, n, Key(q, v)) && LaidOut(procs, s.pt, Key(q, v));
      }
    }
  }

  /** A fork that failed gives back every page: t is the state before freeproc, u after it. */
  lemma UnforkedCount(procs: map<nat, ProcInfo>, s: Sys, t: Sys, u: Sys, p: nat, c: nat)
    requires Inv(s) && Inv(u) && Shape(procs, s) && c !in procs && |u.cnt| == |s.cnt| && Copied(s, u, p, c, 0)
    requires Charged(s.owner, t.owner, c) && forall k :: k in s.pt ==> k.pid != c
    requires forall f :: f in u.owner <==> f in t.owner && t.owner[f] != Process(c)
    ensures |u.free| == |s.free|
  {
    forall k ensures (k in s.pt <==> k in u.pt) && (k in s.pt ==> s.pt[k].frame == u.pt[k].frame) {
      assert CopiedAt(s, u, p, c, 0, k);
    }
    assert s.pt.Keys == u.pt.Keys && s.owner.Keys == u.owner.Keys;
    FreeCount(s, u);
  }

  /** A failed uvmcopy leaves every process as it was. */
  lemma UnforkedWorld(procs: map<nat, ProcInfo>, s: Sys, t: Sys, p: nat, c: nat)
    requires Shape(procs, s) && c !in procs && |t.cnt| == |s.cnt| && Copied(s, t, p, c, 0)
    requires forall f :: f in t.owner ==> f in s.owner && t.owner[f] == s.owner[f]
    ensures Shape(procs, t) && WorldOf(procs, t) == WorldOf(procs, s)
  {
    forall k ensures LaidOut(procs, t.pt, k) && SameAt(s, t, k) {
      assert LaidOut(procs, s.pt, k) && CopiedAt(s, t, p, c, 0, k);
    }
    forall k | k in s.pt ensures k.pid != c {
      assert LaidOut(procs, s.pt, k);
    }
    CopiedInjective(s, t, p, c, 0);
    WorldSame(procs, s, t);
  }

  // ------------------------------------------------- growing

  /** From s to t pages lo..hi of process p were added, all reading as `page`. */
  ghost predicate GrownAt(s: Sys, t: Sys, p: nat, lo: nat, hi: nat, page: PageView, k: Key) {
    && (k in t.pt <==> k in s.pt || (k.pid == p && lo <= k.vpn < hi))
    && (k in s.pt ==> t.pt[k] == s.pt[k] && Look(t, k) == Look(s, k))
    && (k in t.pt && k !in s.pt ==> Look(t, k) == page && t.pt[k].w)
  }

  ghost predicate Grown(s: Sys, t: Sys, p: nat, lo: nat, hi: nat, page: PageView) {
    forall k :: GrownAt(s, t, p, lo, hi, page, k)
  }

  lemma GrownThen(s: Sys, t: Sys, u: Sys, p: nat, lo: nat, hi: nat, page: PageView)
    requires Grown(s, t, p, lo, hi, page) && SameLooks(t, u) && u.pt == t.pt
    ensures Grown(s, u, p, lo, hi, page)
  {
    forall k ensures GrownAt(s, u, p, lo, hi, page, k) {
      assert GrownAt(s, t, p, lo, hi, page, k) && SameAt(t, u, k);
    }
  }

  lemma GrownKeys(s: Sys, t: Sys, p: nat, lo: nat, hi: nat, page: PageView)
    requires Grown(s, t, p, lo, hi, page) && forall v: nat :: Key(p, v) in s.pt <==> v < lo
    ensures lo <= hi ==> (Key(p, hi) !in s.pt && forall v: nat :: v < hi ==> Key(p, v) in t.pt)
  {
    if lo <= hi {
      forall v: nat | v < hi ensures Key(p, v) in t.pt { assert GrownAt(s, t, p, lo, hi, page, Key(p, v)); }
    }
  }

  /** Mapping the zeroed page of e at the end of the range. */
  lemma GrownMap(s: Sys, t: Sys, p: nat, lo: nat, hi: nat, e: Pte)
    requires Inv(t) && e.frame in t.owner && e.w && !e.cow && t.mem[e.frame] == Fill(0)
    requires Grown(s, t, p, lo, hi, PageView(Fill(0), e.r, true, e.x, e.u)) && lo <= hi
    requires Key(p, hi) !in s.pt && Injective(t.pt)
    ensures var u := t.(pt := t.pt[Key(p, hi) := e], owner := t.owner - {e.frame});
            && Grown(s, u, p, lo, hi + 1, PageView(Fill(0), e.r, true, e.x, e.u))
            && Injective(u.pt)
  {
    var page := PageView(Fill(0), e.r, true, e.x, e.u);
    var u := t.(pt := t.pt[Key(p, hi) := e], owner := t.owner - {e.frame});
    var next := hi + 1;
    assert GrownAt(s, t, p, lo, hi, page, Key(p, hi));
    MapOwned(t, Key(p, hi), e);
    forall k ensures GrownAt(s, u, p, lo, next, page, k) {
      assert GrownAt(s, t, p, lo, hi, page, k) && SameAt(t, u, k);
    }
    forall j, k ensures InjectiveAt(u.pt, j, k) {
      assert InjectiveAt(t.pt, j, k);
      if j in t.pt { OwnedIsUnmapped(t, e.frame, j); }
      if k in t.pt { OwnedIsUnmapped(t, e.frame, k); }
    }
  }

  lemma GrownUndo(s: Sys, t: Sys, u: Sys, p: nat, lo: nat, hi: nat, page: PageView)
    requires Grown(s, t, p, lo, hi, page) && Unmapped(t, u, p, lo, hi)
    requires forall v: nat :: lo <= v < hi ==> Key(p, v) !in s.pt
    ensures u.pt == s.pt && SameLooks(s, u)
  {
    forall k ensures (k in u.pt <==> k in s.pt) && (k in s.pt ==> u.pt[k] == s.pt[k]) && SameAt(s, u, k) {
      assert GrownAt(s, t, p, lo, hi, page, k) && UnmappedAt(t, u, p, lo, hi, k);
      assert k == Key(k.pid, k.vpn);
    }
  }

  lemma GrownWorld(procs: map<nat, ProcInfo>, s: Sys, t: Sys, p: nat, n: nat)
    requires Shape(procs, s) && p in procs && |t.cnt| == |s.cnt|
    requires Grown(s, t, p, E.Pages(procs[p].sz), E.Pages(procs[p].sz + n), E.ZERO_PAGE)
    requires Injective(t.pt) && Charged(s.owner, t.owner, p)
    requires E.Pages(procs[p].sz + n) < TRAPFRAME_VPN
    ensures var more := procs[p := procs[p].(sz := procs[p].sz + n)];
            Shape(more, t) && WorldOf(more, t) == E.Grow(WorldOf(procs, s), p, n)
  {
    var lo, hi := E.Pages(procs[p].sz), E.Pages(procs[p].sz + n);
    var more := procs[p := procs[p].(sz := procs[p].sz + n)];
    forall k ensures LaidOut(more, t.pt, k) {
      assert LaidOut(procs, s.pt, k) && GrownAt(s, t, p, lo, hi, E.ZERO_PAGE, k);
    }
    forall q | q in procs
      ensures ViewPages(t, q, E.Pages(procs[q].sz)) == ViewPages(s, q, E.Pages(procs[q].sz))
    {
      forall v | 0 <= v < E.Pages(procs[q].sz) ensures Look(t, Key(q, v)) == Look(s, Key(q, v)) {
        assert LaidOut(procs, s.pt, Key(q, v)) && GrownAt(s, t, p, lo, hi, E.ZERO_PAGE, Key(q, v));
      }
    }
    forall v | lo <= v < hi ensures Look(t, Key(p, v)) == E.ZERO_PAGE {
      assert LaidOut(procs, s.pt, Key(p, v)) && GrownAt(s, t, p, lo, hi, E.ZERO_PAGE, Key(p, v));
    }
    assert ViewPages(t, p, hi) == ViewPages(s, p, lo) + seq(hi - lo, _ => E.ZERO_PAGE);
  }

  /** The machine with the first process alone. */
  lemma FirstWorld(s: Sys, t: Sys, p: nat, src: seq<Byte>)
    requires Shape(map[], s) && |t.cnt| == |s.cnt| && Charged(s.owner, t.owner, p) && |src| < PGSIZE
    requires t.pt.Keys == {Key(p, 0)} && Look(t, Key(p, 0)) == E.FirstPage(src)
    ensures var procs := map[p := ProcInfo(PGSIZE, false)];
            Shape(procs, t) && WorldOf(procs, t) == map[p := E.Proc([E.FirstPage(src)], PGSIZE, false)]
  {
    var procs := map[p := ProcInfo(PGSIZE, false)];
    forall k ensures LaidOut(procs, t.pt, k) {
      assert k in t.pt.Keys <==> k == Key(p, 0);
      assert k == Key(k.pid, k.vpn);
    }
    forall j, k ensures InjectiveAt(t.pt, j, k) {
      assert j in t.pt ==> j in t.pt.Keys;
      assert k in t.pt ==> k in t.pt.Keys;
    }
    assert ViewPages(t, p, 1) == [E.FirstPage(src)];
  }

  // ------------------------------------------------- shrinking

  /** Unmapping the pages above the new size of p keeps the layout. */
  lemma ShrunkShape(procs: map<nat, ProcInfo>, s: Sys, t: Sys, p: nat, n: nat)
    requires Shape(procs, s) && p in procs && n <= procs[p].sz
    requires Unmapped(s, t, p, E.Pages(procs[p].sz - n), E.Pages(procs[p].sz))
    requires t.owner == s.owner && |t.cnt| == |s.cnt|
    ensures Shape(procs[p := procs[p].(sz := procs[p].sz - n)], t)
  {
    var lo, hi := E.Pages(procs[p].sz - n), E.Pages(procs[p].sz);
    var less := procs[p := procs[p].(sz := procs[p].sz - n)];
    forall k ensures LaidOut(less, t.pt, k) {
      assert LaidOut(procs, s.pt, k) && UnmappedAt(s, t, p, lo, hi, k);
    }
    forall j, k ensures InjectiveAt(t.pt, j, k) {
      assert InjectiveAt(s.pt, j, k) && UnmappedAt(s, t, p, lo, hi, j) && UnmappedAt(s, t, p, lo, hi, k);
    }
  }

  lemma ShrunkView(less: map<nat, ProcInfo>, s: Sys, t: Sys, p: nat, lo: nat, hi: nat, q: nat)
    requires Shape(less, t) && Unmapped(s, t, p, lo, hi) && q in less
    ensures ViewPages(t, q, E.Pages(less[q].sz)) == ViewPages(s, q, E.Pages(less[q].sz))
  {
    forall v | 0 <= v < E.Pages(less[q].sz) ensures Look(t, Key(q, v)) == Look(s, Key(q, v)) {
      assert LaidOut(less, t.pt, Key(q, v)) && UnmappedAt(s, t, p, lo, hi, Key(q, v));
    }
  }

  lemma ShrunkWorld(procs: map<nat, ProcInfo>, s: Sys, t: Sys, p: nat, n: nat)
    requires Shape(procs, s) && p in procs && n <= procs[p].sz
    requires Unmapped(s, t, p, E.Pages(procs[p].sz - n), E.Pages(procs[p].sz))
    requires t.owner == s.owner && |t.cnt| == |s.cnt|
    ensures var less := procs[p := procs[p].(sz := procs[p].sz - n)];
            Shape(less, t) && WorldOf(less, t) == E.Shrink(WorldOf(procs, s), p, n)
  {
    var lo, hi := E.Pages(procs[p].sz - n), E.Pages(procs[p].sz);
    var less := procs[p := procs[p].(sz := procs[p].sz - n)];
    ShrunkShape(procs, s, t, p, n);
    forall q | q in procs
      ensures ViewPages(t, q, E.Pages(less[q].sz)) == ViewPages(s, q, E.Pages(less[q].sz))
    {
      ShrunkView(less, s, t, p, lo, hi, q);
    }
    ShrunkSame(procs, s, t, p, n);
  }

  lemma ShrunkSame(procs: map<nat, ProcInfo>, s: Sys, t: Sys, p: nat, n: nat)
    requires p in procs && n <= procs[p].sz
    requires var less := procs[p := procs[p].(sz := procs[p].sz - n)];
             forall q :: q in procs ==> ViewPages(t, q, E.Pages(less[q].sz)) == ViewPages(s, q, E.Pages(less[q].sz))
    ensures WorldOf(procs[p := procs[p].(sz := procs[p].sz - n)], t) == E.Shrink(WorldOf(procs, s), p, n)
  {
    var lo, hi := E.Pages(procs[p].sz - n), E.Pages(procs[p].sz);
    var less := procs[p := procs[p].(sz := procs[p].sz - n)];
    ViewPrefix(s, p, lo, hi);
    var w, w2 := E.Shrink(WorldOf(procs, s), p, n), WorldOf(less, t);
    assert w.Keys == w2.Keys;
    forall q | q in procs ensures w2[q] == w[q] {
      assert ViewPages(t, q, E.Pages(less[q].sz)) == ViewPages(s, q, E.Pages(less[q].sz));
    }
  }

  lemma ViewPrefix(s: Sys, p: nat, lo: nat, hi: nat)
    requires lo <= hi
    ensures ViewPages(s, p, lo) == ViewPages(s, p, hi)[..lo]
  {
  }

  lemma ReapedWorld(procs: map<nat, ProcInfo>, s: Sys, t: Sys, p: nat)
    requires Shape(procs, s) && p in procs && |t.cnt| == |s.cnt|
    requires Unmapped(s, t, p, 0, E.Pages(procs[p].sz))
    requires forall f :: f in t.owner ==> f in s.owner && t.owner[f] == s.owner[f] && t.owner[f] != Process(p)
    ensures Shape(procs - {p}, t) && WorldOf(procs - {p}, t) == WorldOf(procs, s) - {p}
  {
    var hi := E.Pages(procs[p].sz);
    forall k ensures LaidOut(procs - {p}, t.pt, k) {
      assert LaidOut(procs, s.pt, k) && UnmappedAt(s, t, p, 0, hi, k);
    }
    forall j, k ensures InjectiveAt(t.pt, j, k) {
      assert InjectiveAt(s.pt, j, k) && UnmappedAt(s, t, p, 0, hi, j) && UnmappedAt(s, t, p, 0, hi, k);
    }
    forall q | q in procs && q != p
      ensures ViewPages(t, q, E.Pages(procs[q].sz)) == ViewPages(s, q, E.Pages(procs[q].sz))
    {
      forall v | 0 <= v < E.Pages(procs[q].sz) ensures Look(t, Key(q, v)) == Look(s, Key(q, v)) {
        assert LaidOut(procs, s.pt, Key(q, v)) && UnmappedAt(s, t, p, 0, hi, Key(q, v));
      }
    }
  }

  // ------------------------------------------------- faults and stores

  /** A copy-on-write fault on k with a page available. */
  function BreakSharing(s: Sys, k: Key): Sys
    requires InRam(s) && k in s.pt && s.free != []
  {
    var f := s.free[0];
    var t := Take(s);
    Privatize(t.(mem := t.mem[f := t.mem[s.pt[k].frame]]), k, f)
  }

  /** The fault is invisible: every page of every process reads as before. */
  lemma BreakSharingKeeps(s: Sys, k: Key)
    requires Inv(s) && k in s.pt && s.pt[k].cow && s.free != []
    ensures Inv(BreakSharing(s, k)) && SameLooks(s, BreakSharing(s, k))
    ensures BreakSharing(s, k).owner == s.owner
  {
    var f := s.free[0];
    var t := Take(s);
    TakeKeeps(s);
    var copy := t.mem[s.pt[k].frame];
    FillOwned(t, f, copy);
    var u := t.(mem := t.mem[f := copy]);
    OwnedIsUnmapped(t, f, k);
    PrivatizeKeeps(u, k, f);
    SameTrans(s, t, u);
    SameTrans(s, u, BreakSharing(s, k));
    assert s.owner[f := Kernel] - {f} == s.owner;
  }

  lemma BreakSharingWorld(procs: map<nat, ProcInfo>, s: Sys, k: Key)
    requires Inv(s) && Shape(procs, s) && k in s.pt && s.pt[k].cow && s.free != []
    ensures Shape(procs, BreakSharing(s, k))
    ensures WorldOf(procs, BreakSharing(s, k)) == WorldOf(procs, s)
  {
    var t := BreakSharing(s, k);
    var f := s.free[0];
    BreakSharingKeeps(s, k);
    TakeKeeps(s);
    forall j ensures LaidOut(procs, t.pt, j) {
      assert LaidOut(procs, s.pt, j);
    }
    forall i, j ensures InjectiveAt(t.pt, i, j) {
      assert InjectiveAt(s.pt, i, j);
      if i in s.pt { OwnedIsUnmapped(Take(s), f, i); }
      if j in s.pt { OwnedIsUnmapped(Take(s), f, j); }
    }
    WorldSame(procs, s, t);
  }

  // ------------------------------------------------- the pages a copyout takes

  ghost predicate CowAt(s: Sys, k: Key) {
    k in s.pt && s.pt[k].cow
  }

  /** Others name the page of k too, so that the copy for k takes a page for good. */
  ghost predicate Multi(s: Sys, k: Key) {
    CowAt(s, k) && Refs(s, s.pt[k].frame) > 1
  }

  lemma BreakSharingFree(s: Sys, k: Key)
    requires Inv(s) && CowAt(s, k) && s.free != []
    ensures |BreakSharing(s, k).free| == |s.free| - if Multi(s, k) then 1 else 0
  {
    UserCounts(s, k);
    assert CountedAt(s, s.pt[k].frame) && CountedAt(s, s.free[0]);
  }

  /** Entry j and the number of references to its page are as before. */
  ghost predicate AheadAt(s: Sys, t: Sys, j: Key) {
    && (j in t.pt <==> j in s.pt)
    && (j in s.pt ==> t.pt[j] == s.pt[j] && Refs(t, t.pt[j].frame) == Refs(s, s.pt[j].frame))
  }

  ghost predicate Ahead(s: Sys, t: Sys, p: nat, v: nat) {
    forall u: nat :: v <= u ==> AheadAt(s, t, Key(p, u))
  }

  lemma BreakSharingAhead(s: Sys, k: Key, j: Key)
    requires Inv(s) && Injective(s.pt) && CowAt(s, k) && s.free != [] && j != k && j.pid == k.pid
    ensures AheadAt(s, BreakSharing(s, k), j)
  {
    if j in s.pt {
      assert InjectiveAt(s.pt, j, k);
      UserCounts(s, j);
      assert CountedAt(s, s.free[0]);
      var e := s.pt[k].(frame := s.free[0], w := true, cow := false);
      UsersPut(s.pt, k, e, s.pt[j].frame);
    }
  }

  /** The pages that copying pages lo..hi of process p takes for good. */
  ghost function Copies(s: Sys, p: nat, lo: nat, hi: nat): (n: nat)
    ensures lo <= hi ==> n <= hi - lo
    decreases hi
  {
    if hi <= lo then 0 else Copies(s, p, lo, hi - 1) + if Multi(s, Key(p, hi - 1)) then 1 else 0
  }

  /** Page u can be copied: it is not shared, or a page is left after those before it. */
  ghost predicate FedAt(s: Sys, p: nat, lo: nat, u: nat) {
    CowAt(s, Key(p, u)) ==> Copies(s, p, lo, u) < |s.free|
  }

  /** From s to t pages lo..v of process p have been made private. */
  ghost predicate Drained(s: Sys, t: Sys, p: nat, lo: nat, v: nat) {
    && Ahead(s, t, p, v) && |t.free| + Copies(s, p, lo, v) == |s.free|
    && forall u: nat :: lo <= u < v ==> FedAt(s, p, lo, u)
  }

  lemma DrainStep(s: Sys, t: Sys, x: Sys, p: nat, lo: nat, v: nat)
    requires Drained(s, t, p, lo, v) && lo <= v && Ahead(t, x, p, v + 1)
    requires |x.free| == |t.free| - (if Multi(t, Key(p, v)) then 1 else 0) && (CowAt(t, Key(p, v)) ==> t.free != [])
    ensures Drained(s, x, p, lo, v + 1)
  {
    assert AheadAt(s, t, Key(p, v));
    forall u: nat | v + 1 <= u ensures AheadAt(s, x, Key(p, u)) {
      assert AheadAt(s, t, Key(p, u)) && AheadAt(t, x, Key(p, u));
    }
  }

  /** A copyout of n bytes to dstva comes to page v and finds no page for its copy. */
  ghost predicate StarvesAt(s: Sys, p: nat, dstva: nat, n: nat, v: nat) {
    n > 0 && dstva / PGSIZE <= v <= (dstva + n - 1) / PGSIZE && !FedAt(s, p, dstva / PGSIZE, v)
  }

  /** One page of process p is written, and copied before if it is shared. */
  ghost predicate Passes(s: Sys, t: Sys, p: nat, v: nat) {
    && Ahead(s, t, p, v + 1) && (CowAt(s, Key(p, v)) ==> s.free != [])
    && |t.free| == |s.free| - if Multi(s, Key(p, v)) then 1 else 0
  }

  /** After tot of n bytes copyout has come to page v. */
  predicate CameTo(dstva: nat, n: nat, tot: nat, v: nat) {
    && dstva / PGSIZE <= v && (tot == 0 ==> v == dstva / PGSIZE)
    && (tot > 0 ==> v == (dstva + tot - 1) / PGSIZE + 1)
    && (tot < n ==> v == (dstva + tot) / PGSIZE)
  }

  lemma NextTurn(dstva: nat, n: nat, tot: nat, v: nat, m: nat)
    requires CameTo(dstva, n, tot, v) && tot < n && 0 < m && tot + m <= n
    requires (dstva + tot) % PGSIZE + m <= PGSIZE && (tot + m < n ==> (dstva + tot) % PGSIZE + m == PGSIZE)
    ensures CameTo(dstva, n, tot + m, v + 1)
  {
    NextPage(dstva + tot, m);
  }

  /** Copyout, begun in s, stopped before byte tot of n, at page v, with `left` free pages. */
  ghost predicate Stopped(s: Sys, pages: seq<PageView>, p: nat, dstva: nat, n: nat, tot: nat, v: nat, o: Outcome, left: nat) {
    && tot <= n && CameTo(dstva, n, tot, v) && left + Copies(s, p, dstva / PGSIZE, v) == |s.free|
    && (forall u: nat :: dstva / PGSIZE <= u < v ==> FedAt(s, p, dstva / PGSIZE, u))
    && match o
       case Done => tot == n
       case Failed => tot < n && !E.MayStore(pages, dstva + tot)
       case Panicked(k) => k == tot && tot < n && E.MayStore(pages, dstva + tot) && CowAt(s, Key(p, v)) && left == 0
       case Killed => false
       case Stripped => false
       case Gave(_) => false
  }

  lemma StoppedIs(s: Sys, pages: seq<PageView>, p: nat, dstva: nat, n: nat, tot: nat, v: nat, o: Outcome, left: nat)
    requires Stopped(s, pages, p, dstva, n, tot, v, o, left)
    requires E.Storable(pages, dstva, n) == tot + E.Storable(pages, dstva + tot, n - tot)
    ensures o.Panicked? <==> exists u: nat :: StarvesAt(s, p, dstva, E.Storable(pages, dstva, n), u)
    ensures if o.Panicked? then o.stored == tot < E.Storable(pages, dstva, n) else tot == E.Storable(pages, dstva, n)
    ensures left <= |s.free| <= left + Touched(dstva, n) && (o.Panicked? ==> |s.free| < Touched(dstva, n))
  {
    var lo, k := dstva / PGSIZE, E.Storable(pages, dstva, n);
    if o.Panicked? {
      assert StarvesAt(s, p, dstva, k, v);
    } else {
      forall u: nat ensures !StarvesAt(s, p, dstva, k, u) {
        if lo <= u < v { assert FedAt(s, p, lo, u); }
      }
    }
  }

  /** What copyout has done when it stops. */
  lemma CopyoutEnds(s: Sys, w: E.World, p: nat, dstva: nat, src: seq<Byte>, tot: nat, v: nat, o: Outcome, left: nat)
    requires p in w && Stopped(s, w[p].pages, p, dstva, |src|, tot, v, o, left) && E.AllStorable(w[p].pages, dstva, tot)
    ensures var n := E.Storable(w[p].pages, dstva, |src|);
            && (o == Done || o == Failed || o.Panicked?)
            && (o.Panicked? <==> exists u: nat :: StarvesAt(s, p, dstva, n, u))
            && (if o.Panicked? then o.stored == tot < n && left == 0
                else tot == n && E.CopyoutUpTo(w, p, dstva, src, tot) == E.Copyout(w, p, dstva, src) && (o == Done <==> n == |src|))
    ensures left <= |s.free| <= left + Touched(dstva, |src|) && (o.Panicked? ==> |s.free| < Touched(dstva, |src|))
    ensures E.SomeBytes(w, E.CopyoutUpTo(w, p, dstva, src, tot), p, dstva, src, tot)
  {
    E.StorableAtLeast(w[p].pages, dstva, |src|, tot);
    StoppedIs(s, w[p].pages, p, dstva, |src|, tot, v, o, left);
    E.CopyoutLaw(w, p, dstva, src, tot);
  }

  /** Turns of copyout go from page to page. */
  lemma NextPage(va: nat, n: nat)
    requires 0 < n && va % PGSIZE + n <= PGSIZE
    ensures va % PGSIZE + n == PGSIZE ==> (va + n) / PGSIZE == va / PGSIZE + 1 && (va + n) % PGSIZE == 0
    ensures (va + n - 1) / PGSIZE == va / PGSIZE
  {
    assert va == PGSIZE * (va / PGSIZE) + va % PGSIZE;
  }

  /** A write to a writable page is a write to that page of that process only. */
  lemma WriteWorld(procs: map<nat, ProcInfo>, s: Sys, k: Key, page: Page)
    requires Inv(s) && Shape(procs, s) && k in s.pt && s.pt[k].w && k.pid in procs
    ensures var t := s.(mem := s.mem[s.pt[k].frame := page]);
            var w := WorldOf(procs, s);
            && Inv(t) && Shape(procs, t) && k.vpn < |w[k.pid].pages|
            && var pages := w[k.pid].pages;
               WorldOf(procs, t)
               == w[k.pid := w[k.pid].(pages := pages[k.vpn := pages[k.vpn].(bytes := page)])]
  {
    var t := s.(mem := s.mem[s.pt[k].frame := page]);
    WriteKeeps(s, k, page);
    assert LaidOut(procs, s.pt, k);
    forall q | q in procs
      ensures var n := E.Pages(procs[q].sz);
              ViewPages(t, q, n) == if q == k.pid
                then ViewPages(s, q, n)[k.vpn := Look(s, k).(bytes := page)] else ViewPages(s, q, n)
    {
      forall v | 0 <= v < E.Pages(procs[q].sz)
        ensures Look(t, Key(q, v)) == if Key(q, v) == k then Look(s, k).(bytes := page) else Look(s, Key(q, v))
      {
        assert LaidOut(procs, s.pt, Key(q, v));
      }
    }
  }

  /** A kernel page may change hands. */
  lemma RenameOwner(s: Sys, f: nat, h: Holder)
    requires Inv(s) && f in s.owner
    ensures Inv(s.(owner := s.owner[f := h])) && SameLooks(s, s.(owner := s.owner[f := h]))
  {
    var t := s.(owner := s.owner[f := h]);
    forall g: nat | g < |t.cnt| ensures CountedAt(t, g) {
      assert CountedAt(s, g);
    }
    forall k ensures ExclusiveAt(t, k) {
      assert ExclusiveAt(s, k);
    }
    forall g ensures HeldAt(t, g) {
      assert HeldAt(s, g);
    }
  }

  class Machine {
    var free: seq<nat>             // kmem.freelist
    var cnt: seq<int>              // pgcount_arr
    var mem: seq<Page>
    var pt: map<Key, Pte>
    var owner: map<nat, Holder>
    var procs: map<nat, ProcInfo>

    ghost function State(): Sys
      reads this
    {
      Sys(free, cnt, mem, pt, owner)
    }

    ghost predicate Valid()
      reads this
    {
      Inv(State()) && Shape(procs, State())
    }

    ghost function World(): E.World
      reads this
      requires Valid()
    {
      WorldOf(procs, State())
    }

    // -------------------------------------------------------------- kalloc.c

    /** kinit: free every page of a machine with n pages of memory. */
    constructor (n: nat)
      requires n <= MAXFRAMES
      ensures Valid() && procs == map[] && owner == map[]
      ensures |free| == n == |cnt|
    {
      free, cnt, mem := [], seq(n, _ => 0), seq(n, _ => Fill(0));
      pt, owner, procs := map[], map[], map[];
      new;
      var i := 0;
      while i < n
        invariant 0 <= i <= n && |cnt| == |mem| == n && |free| == i
        invariant pt == map[] && owner == map[] && procs == map[]
        invariant forall j :: 0 <= j < i ==> free[j] == i - 1 - j
        invariant forall f :: 0 <= f < n ==> cnt[f] == if f < i then -1 else 0
      {
        Kfree(i);
        i := i + 1;
      }
      forall f: nat | f < n ensures CountedAt(State(), f) {
        assert free[n - 1 - f] == f;
      }
    }

    method Kalloc() returns (ok: bool, f: nat)
      requires |cnt| == |mem| && forall i :: 0 <= i < |free| ==> free[i] < |cnt|
      modifies this
      ensures procs == old(procs) && ok == (old(free) != [])
      ensures ok ==> State() == Take(old(State())) && f == old(free)[0]
      ensures !ok ==> State() == old(State())
    {
      if |free| == 0 {
        return false, 0;
      }
      f := free[0];
      free := free[1..];
      mem := mem[f := Fill(5)];
      cnt := cnt[f := 1];
      owner := owner[f := Kernel];
      ok := true;
    }

    method Kfree(f: nat)
      requires f < |cnt| == |mem|
      modifies this
      ensures procs == old(procs) && State() == Free(old(State()), f)
    {
      cnt := cnt[f := cnt[f] - 1];
      if cnt[f] > 0 {
        return;
      }
      mem := mem[f := Fill(1)];
      free := [f] + free;
    }

    // -------------------------------------------------------------- vm.c

    /** A zeroed page for the running kernel code. */
    method NewPage() returns (got: bool, f: nat)
      requires Inv(State())
      modifies this
      ensures procs == old(procs) && got == (old(free) != [])
      ensures !got ==> State() == old(State())
      ensures got ==> Inv(State()) && pt == old(pt) && |cnt| == old(|cnt|) && SameLooks(old(State()), State())
      ensures got ==> f < old(|mem|) && f !in old(owner) && owner == old(owner)[f := Kernel] && mem == old(mem)[f := Fill(0)]
      ensures got ==> |free| == old(|free|) - 1
    {
      ghost var s := State();
      got, f := Kalloc();
      if !got {
        return;
      }
      TakeKeeps(s);
      FillOwned(State(), f, Fill(0));
      SameTrans(s, State(), State().(mem := mem[f := Fill(0)]));
      mem := mem[f := Fill(0)];
    }

    /** One zeroed page, charged to process h. */
    method WalkPage(h: nat) returns (got: bool)
      requires Inv(State())
      modifies this
      ensures procs == old(procs) && (got <==> old(free) != [])
      ensures if got then Walked(old(State()), State(), h, 1) else State() == old(State())
    {
      ghost var s := State();
      var f;
      got, f := NewPage();
      if !got {
        return;
      }
      ghost var t := State();
      RenameOwner(t, f, Process(h));
      SameTrans(s, t, t.(owner := owner[f := Process(h)]));
      owner := owner[f := Process(h)];
    }

    /** The page-table pages that walk must create (n of them), charged to process h. */
    method WalkAlloc(h: nat, n: nat) returns (ok: bool)
      requires Inv(State())
      modifies this
      ensures procs == old(procs) && (ok <==> n <= old(|free|))
      ensures Walked(old(State()), State(), h, if ok then n else old(|free|))
    {
      ghost var s := State();
      var i := 0;
      while i < n
        invariant i <= n && procs == old(procs) && Walked(s, State(), h, i)
      {
        ghost var t := State();
        var got := WalkPage(h);
        if !got {
          return false;
        }
        WalkedTrans(s, t, State(), h, i, 1);
        i := i + 1;
      }
      ok := true;
    }

    /** freewalk and the trapframe: give back every kernel page of process p. */
    method FreeTables(p: nat)
      requires Inv(State())
      modifies this
      ensures Inv(State()) && pt == old(pt) && procs == old(procs) && |cnt| == old(|cnt|)
      ensures SameLooks(old(State()), State())
      ensures forall f :: f in owner <==> f in old(owner) && old(owner)[f] != Process(p)
      ensures forall f :: f in owner ==> owner[f] == old(owner)[f]
      ensures |free| >= old(|free|)
    {
      while exists f :: f in owner && owner[f] == Process(p)
        invariant Inv(State()) && pt == old(pt) && procs == old(procs) && |cnt| == old(|cnt|)
        invariant SameLooks(old(State()), State())
        invariant forall f :: f in owner ==> f in old(owner) && owner[f] == old(owner)[f]
        invariant |free| >= old(|free|)
        invariant forall f :: f in old(owner) && old(owner)[f] != Process(p) ==> f in owner
        decreases owner.Keys
      {
        var f :| f in owner && owner[f] == Process(p);
        ghost var s := State();
        DropKeeps(s, f);
        Kfree(f);
        owner := owner - {f};
        SameTrans(old(State()), s, State());
      }
    }

    /** Remove n mappings starting at page v0, which must exist, and free their pages. */
    method Uvmunmap(p: nat, v0: nat, n: nat)
      requires Inv(State()) && forall v: nat :: v0 <= v < v0 + n ==> Key(p, v) in pt
      modifies this
      ensures Inv(State()) && procs == old(procs) && owner == old(owner) && |cnt| == old(|cnt|)
      ensures Unmapped(old(State()), State(), p, v0, v0 + n)
      ensures old(|free|) <= |free| <= old(|free|) + n
      ensures (forall v: nat :: v0 <= v < v0 + n ==> old(pt)[Key(p, v)].w) ==> |free| == old(|free|) + n
    {
      var v := v0;
      while v < v0 + n
        invariant v0 <= v <= v0 + n
        invariant Inv(State()) && procs == old(procs) && owner == old(owner) && |cnt| == old(|cnt|)
        invariant Unmapped(old(State()), State(), p, v0, v) && old(|free|) <= |free| <= old(|free|) + (v - v0)
        invariant (forall u: nat :: v0 <= u < v0 + n ==> old(pt)[Key(p, u)].w) ==> |free| == old(|free|) + (v - v0)
      {
        assert UnmappedAt(old(State()), State(), p, v0, v, Key(p, v));
        UnmapKeeps(State(), Key(p, v));
        UnmapFrees(State(), Key(p, v));
        UnmappedStep(old(State()), State(), p, v0, v);
        Kfree(pt[Key(p, v)].frame);
        pt := pt - {Key(p, v)};
        v := v + 1;
      }
    }

    /** Share every page of p with the new process c; on failure c is left with none. */
    method Uvmcopy(p: nat, c: nat, n: nat, need: Tables) returns (ok: bool)
      requires Inv(State())
      requires forall v: nat :: v < n ==> Key(p, v) in pt
      requires forall k :: k in pt ==> k.pid != c
      modifies this
      ensures Inv(State()) && procs == old(procs) && |cnt| == old(|cnt|)
      ensures Charged(old(owner), owner, c)
      ensures Copied(old(State()), State(), p, c, if ok then n else 0)
      ensures ok <==> Total(need, 0, n) <= old(|free|)
      ensures ok ==> |free| == old(|free|) - Total(need, 0, n)
    {
      ghost var s := State();
      var v := 0;
      while v < n
        invariant 0 <= v <= n && |free| + Total(need, 0, v) == old(|free|)
        invariant Inv(State()) && procs == old(procs) && |cnt| == old(|cnt|)
        invariant Charged(old(owner), owner, c) && Copied(s, State(), p, c, v)
      {
        ok := CopyPage(s, p, c, v, At(need, v));
        TotalGrows(need, 0, v + 1, n);
        if !ok {
          ghost var t := State();
          forall u: nat | u < v ensures Key(c, u) in pt {
            assert CopiedAt(s, t, p, c, v, Key(c, u));
          }
          Uvmunmap(c, 0, v);
          CopiedUndo(s, t, State(), p, c, v);
          return false;
        }
        v := v + 1;
      }
      ok := true;
    }

    /** One turn of the loop of uvmcopy; s is the state before the loop. */
    method CopyPage(ghost s: Sys, p: nat, c: nat, v: nat, need: nat) returns (ok: bool)
      requires Inv(State()) && Copied(s, State(), p, c, v) && Key(p, v) in s.pt
      requires forall k :: k in s.pt ==> k.pid != c
      modifies this
      ensures Inv(State()) && procs == old(procs) && |cnt| == old(|cnt|)
      ensures Charged(old(owner), owner, c)
      ensures Copied(s, State(), p, c, if ok then v + 1 else v)
      ensures ok <==> need <= old(|free|)
      ensures ok ==> |free| == old(|free|) - need
    {
      DowngradePage(s, p, c, v);
      ghost var t := State();
      ok := WalkAlloc(c, need);
      CopiedThen(s, t, State(), p, c, v);
      if ok {
        SharePage(s, p, c, v);
      }
    }

    /** The parent's entry loses write permission. */
    method DowngradePage(ghost s: Sys, p: nat, ghost c: nat, v: nat)
      requires Inv(State()) && Copied(s, State(), p, c, v) && Key(p, v) in s.pt && p != c
      modifies this`pt
      ensures Inv(State()) && Copied(s, State(), p, c, v) && Key(p, v) in pt && !pt[Key(p, v)].w
    {
      ghost var t := State();
      assert CopiedAt(s, t, p, c, v, Key(p, v));
      DowngradeKeeps(State(), Key(p, v));
      pt := pt[Key(p, v) := Downgrade(pt[Key(p, v)])];
      CopiedThen(s, t, State(), p, c, v);
    }

    /** The child's entry names the same page. */
    method SharePage(ghost s: Sys, p: nat, c: nat, v: nat)
      requires Inv(State()) && Copied(s, State(), p, c, v) && Key(p, v) in s.pt && Key(p, v) in pt && !pt[Key(p, v)].w
      requires forall k :: k in s.pt ==> k.pid != c
      modifies this`pt, this`cnt
      ensures Inv(State()) && Copied(s, State(), p, c, v + 1) && |cnt| == old(|cnt|)
    {
      assert CopiedAt(s, State(), p, c, v, Key(c, v));
      ShareKeeps(State(), Key(p, v), Key(c, v));
      CopiedShare(s, State(), p, c, v);
      var e := pt[Key(p, v)];
      pt := pt[Key(c, v) := e];
      cnt := cnt[e.frame := cnt[e.frame] + 1];
    }

    method Fork(p: nat, c: nat, need0: nat, need: Tables) returns (ok: bool)
      requires Valid() && p in procs && c !in procs
      modifies this
      ensures Valid()
      ensures World() == if ok then E.Fork(old(World()), p, c) else old(World())
      ensures ok <==> ForkNeeds(old(procs)[p].sz, need0, need) <= old(|free|)
      ensures |free| == old(|free|) - if ok then ForkNeeds(old(procs)[p].sz, need0, need) else 0
      ensures ok ==> procs == old(procs)[c := ProcInfo(old(procs)[p].sz, false)]
      ensures ok ==> forall v: nat :: v < E.Pages(procs[p].sz) ==> Shared(pt, Key(p, v), Key(c, v))
    {
      ghost var s := State();
      forall k | k in pt ensures k.pid != c {
        assert LaidOut(procs, s.pt, k);
      }
      var n := E.Pages(procs[p].sz);
      forall v: nat | v < n ensures Key(p, v) in pt {
        assert LaidOut(procs, s.pt, Key(p, v));
      }
      ok := ForkPages(p, c, n, need0, need);
      if !ok {
        ghost var t := State();
        FreeTables(c);
        CopiedThen(s, t, State(), p, c, 0);
        UnforkedWorld(procs, s, State(), p, c);
        UnforkedCount(procs, s, t, State(), p, c);
        return;
      }
      ForkedWorld(procs, s, State(), p, c);
      forall v: nat | v < n ensures Shared(pt, Key(p, v), Key(c, v)) {
        assert CopiedAt(s, State(), p, c, n, Key(p, v)) && CopiedAt(s, State(), p, c, n, Key(c, v));
      }
      procs := procs[c := ProcInfo(procs[p].sz, false)];
    }

    /** allocproc's pages for the child, then uvmcopy. */
    method ForkPages(p: nat, c: nat, n: nat, need0: nat, need: Tables) returns (ok: bool)
      requires Inv(State())
      requires forall v: nat :: v < n ==> Key(p, v) in pt
      requires forall k :: k in pt ==> k.pid != c
      modifies this
      ensures Inv(State()) && procs == old(procs) && |cnt| == old(|cnt|)
      ensures Charged(old(owner), owner, c)
      ensures Copied(old(State()), State(), p, c, if ok then n else 0)
      ensures ok <==> need0 + Total(need, 0, n) <= old(|free|)
      ensures ok ==> |free| == old(|free|) - need0 - Total(need, 0, n)
    {
      ghost var s := State();
      ok := WalkAlloc(c, need0);
      ghost var t := State();
      forall k ensures CopiedAt(s, t, p, c, 0, k) {
        assert SameAt(s, t, k);
      }
      if ok {
        ok := Uvmcopy(p, c, n, need);
        ghost var m := if ok then n else 0;
        forall k ensures CopiedAt(s, State(), p, c, m, k) {
          assert SameAt(s, t, k) && CopiedAt(t, State(), p, c, m, k);
          assert SameAt(s, t, Key(p, k.vpn));
        }
      }
    }

    /** One turn of the loop of uvmalloc with write permission. */
    method AllocPage(ghost s: Sys, p: nat, ghost lo: nat, v: nat, need: nat) returns (ok: bool)
      requires Inv(State()) && Injective(pt) && |cnt| <= MAXFRAMES
      requires lo <= v && Grown(s, State(), p, lo, v, E.ZERO_PAGE)
      requires Key(p, v) !in s.pt && forall u: nat :: u < v ==> Key(p, u) in pt
      modifies this
      ensures Inv(State()) && procs == old(procs) && |cnt| == old(|cnt|) && Injective(pt)
      ensures Charged(old(owner), owner, p)
      ensures Grown(s, State(), p, lo, if ok then v + 1 else v, E.ZERO_PAGE)
      ensures ok ==> v + 1 < TRAPFRAME_VPN
      ensures ok <==> 1 + need <= old(|free|)
      ensures ok ==> |free| == old(|free|) - 1 - need
    {
      ghost var t := State();
      var got, f := NewPage();
      if !got {
        return false;
      }
      SizeBound(State(), p, v, f);
      GrownThen(s, t, State(), p, lo, v, E.ZERO_PAGE);
      assert owner - {f} == t.owner;
      ok := AllocMap(s, p, lo, v, need, f);
    }

    method AllocMap(ghost s: Sys, p: nat, ghost lo: nat, v: nat, need: nat, f: nat) returns (ok: bool)
      requires Inv(State()) && Injective(pt) && f in owner && owner[f] == Kernel && mem[f] == Fill(0)
      requires lo <= v && Grown(s, State(), p, lo, v, E.ZERO_PAGE) && Key(p, v) !in s.pt
      modifies this
      ensures Inv(State()) && procs == old(procs) && |cnt| == old(|cnt|) && Injective(pt)
      ensures Charged(old(owner) - {f}, owner, p)
      ensures Grown(s, State(), p, lo, if ok then v + 1 else v, E.ZERO_PAGE)
      ensures ok <==> need <= old(|free|)
      ensures ok ==> |free| == old(|free|) - need
    {
      ghost var t := State();
      ok := WalkAlloc(p, need);
      GrownThen(s, t, State(), p, lo, v, E.ZERO_PAGE);
      if ok {
        MapPage(s, p, lo, v, f);
      } else {
        GiveBack(s, p, lo, v, f);
      }
    }

    /** The new page f becomes page v of process p. */
    method MapPage(ghost s: Sys, p: nat, ghost lo: nat, v: nat, f: nat)
      requires Inv(State()) && Injective(pt) && f in owner && mem[f] == Fill(0)
      requires lo <= v && Grown(s, State(), p, lo, v, E.ZERO_PAGE) && Key(p, v) !in s.pt
      modifies this`pt, this`owner
      ensures Inv(State()) && Injective(pt) && Grown(s, State(), p, lo, v + 1, E.ZERO_PAGE)
      ensures owner == old(owner) - {f}
    {
      var e := Pte(f, true, true, false, true, false);
      GrownMap(s, State(), p, lo, v, e);
      assert GrownAt(s, State(), p, lo, v, E.ZERO_PAGE, Key(p, v));
      MapOwned(State(), Key(p, v), e);
      pt := pt[Key(p, v) := e];
      owner := owner - {f};
    }

    /** The new page f is freed again. */
    method GiveBack(ghost s: Sys, p: nat, ghost lo: nat, v: nat, f: nat)
      requires Inv(State()) && f in owner && lo <= v && Grown(s, State(), p, lo, v, E.ZERO_PAGE)
      modifies this
      ensures Inv(State()) && pt == old(pt) && procs == old(procs) && |cnt| == old(|cnt|)
      ensures Grown(s, State(), p, lo, v, E.ZERO_PAGE)
      ensures owner == old(owner) - {f}
    {
      ghost var t := State();
      DropKeeps(t, f);
      Kfree(f);
      owner := owner - {f};
      GrownThen(s, t, State(), p, lo, v, E.ZERO_PAGE);
    }

    /** uvmalloc with write permission: add pages lo..hi, or none of them. */
    method Uvmalloc(p: nat, lo: nat, hi: nat, need: Tables) returns (ok: bool)
      requires Inv(State()) && Injective(pt) && |cnt| <= MAXFRAMES && lo < TRAPFRAME_VPN
      requires forall v: nat :: Key(p, v) in pt <==> v < lo
      modifies this
      ensures procs == old(procs) && (ok <==> Cost(need, lo, hi) <= old(|free|))
      ensures Partly(old(State()), State(), p, lo, if ok && lo <= hi then hi else lo)
      ensures ok ==> hi < TRAPFRAME_VPN && |free| == old(|free|) - Cost(need, lo, hi)
      ensures !ok ==> pt == old(pt) && SameLooks(old(State()), State())
      ensures !ok ==> old(|free|) <= |free| + Total(need, lo, hi)
    {
      ghost var s := State();
      var v := lo;
      while v < hi
        invariant lo <= v && (v <= hi || v == lo) && v < TRAPFRAME_VPN && procs == old(procs)
        invariant Partly(s, State(), p, lo, v) && |free| + Cost(need, lo, v) == |s.free|
      {
        ok := AllocTurn(s, p, lo, v, need);
        CostStep(need, lo, v, hi);
        TotalGrows(need, lo, v + 1, hi);
        if !ok {
          UndoAlloc(s, p, lo, v);
          return false;
        }
        v := v + 1;
      }
      ok := true;
    }

    /** A turn, seen from the state s before the loop. */
    method AllocTurn(ghost s: Sys, p: nat, ghost lo: nat, v: nat, need: Tables) returns (ok: bool)
      requires Partly(s, State(), p, lo, v) && lo <= v && |s.cnt| <= MAXFRAMES
      requires forall u: nat :: Key(p, u) in s.pt <==> u < lo
      modifies this
      ensures procs == old(procs) && (ok <==> 1 + At(need, v) <= old(|free|))
      ensures Partly(s, State(), p, lo, if ok then v + 1 else v)
      ensures ok ==> |free| == old(|free|) - 1 - At(need, v) && v + 1 < TRAPFRAME_VPN
    {
      ghost var t := State();
      GrownKeys(s, t, p, lo, v, E.ZERO_PAGE);
      ok := AllocPage(s, p, lo, v, At(need, v));
      ChargedTrans(s.owner, t.owner, owner, p);
    }

    /** uvmdealloc of the pages that a failing uvmalloc had added. */
    method UndoAlloc(ghost s: Sys, p: nat, lo: nat, v: nat)
      requires lo <= v && Partly(s, State(), p, lo, v) && Injective(s.pt)
      requires forall u: nat :: Key(p, u) in s.pt <==> u < lo
      modifies this
      ensures procs == old(procs) && Partly(s, State(), p, lo, lo) && pt == s.pt && SameLooks(s, State())
      ensures |free| == old(|free|) + (v - lo)
    {
      ghost var t := State();
      forall u: nat | lo <= u < v ensures Key(p, u) in pt && pt[Key(p, u)].w {
        assert GrownAt(s, t, p, lo, v, E.ZERO_PAGE, Key(p, u));
      }
      Uvmunmap(p, lo, v - lo);
      GrownUndo(s, t, State(), p, lo, v, E.ZERO_PAGE);
      forall j ensures GrownAt(s, State(), p, lo, lo, E.ZERO_PAGE, j) { assert SameAt(s, State(), j); }
    }

    /** growproc with n > 0. */
    method Grow(p: nat, n: nat, need: Tables) returns (ok: bool)
      requires Valid() && p in procs
      modifies this
      ensures Valid()
      ensures World() == if ok then E.Grow(old(World()), p, n) else old(World())
      ensures ok <==> GrowNeeds(old(procs)[p].sz, n, need) <= old(|free|)
      ensures ok ==> |free| == old(|free|) - GrowNeeds(old(procs)[p].sz, n, need)
      ensures !ok ==> var sz := old(procs)[p].sz; old(|free|) <= |free| + Total(need, E.Pages(sz), E.Pages(sz + n))
      ensures ok ==> procs == old(procs)[p := old(procs)[p].(sz := old(procs)[p].sz + n)]
    {
      ghost var s := State();
      var sz := procs[p].sz;
      LaidKeys(procs, s, p);
      ok := Uvmalloc(p, E.Pages(sz), E.Pages(sz + n), need);
      if ok {
        GrownWorld(procs, s, State(), p, n);
        procs := procs[p := procs[p].(sz := sz + n)];
      } else {
        WorldSame(procs, s, State());
      }
    }

    /** growproc with a negative argument -n. */
    method Shrink(p: nat, n: nat)
      requires Valid() && p in procs
      modifies this
      ensures Valid() && World() == E.Shrink(old(World()), p, n)
      ensures old(|free|) <= |free| <= old(|free|) + E.Pages(old(procs)[p].sz)
    {
      ghost var s := State();
      var sz := procs[p].sz;
      if n > sz {
        return;
      }
      var lo, hi := E.Pages(sz - n), E.Pages(sz);
      forall v: nat | v < hi ensures Key(p, v) in pt {
        assert LaidOut(procs, s.pt, Key(p, v));
      }
      Uvmunmap(p, lo, hi - lo);
      ShrunkWorld(procs, s, State(), p, n);
      procs := procs[p := procs[p].(sz := sz - n)];
    }

    /** freeproc: the memory of an exited process goes back. */
    method Reap(p: nat)
      requires Valid() && p in procs
      modifies this
      ensures Valid() && World() == old(World()) - {p} && |free| >= old(|free|)
    {
      ghost var s := State();
      var hi := E.Pages(procs[p].sz);
      forall v: nat | v < hi ensures Key(p, v) in pt {
        assert LaidOut(procs, s.pt, Key(p, v));
      }
      Uvmunmap(p, 0, hi);
      ghost var t := State();
      FreeTables(p);
      forall k ensures UnmappedAt(s, State(), p, 0, hi, k) {
        assert UnmappedAt(s, t, p, 0, hi, k) && SameAt(t, State(), k);
      }
      ReapedWorld(procs, s, State(), p);
      procs := procs - {p};
    }

    /** userinit: the pages of allocproc, then uvmfirst with the initial code.  It needs memory
        for both and code shorter than a page; otherwise the kernel panics or faults. */
    method Userinit(p: nat, src: seq<Byte>, need0: nat, need: nat) returns (ok: bool)
      requires Valid() && procs == map[]
      modifies this
      ensures ok <==> |src| < PGSIZE && need0 + 1 + need <= old(|free|)
      ensures ok ==> Valid() && World() == map[p := E.Proc([E.FirstPage(src)], PGSIZE, false)]
      ensures ok ==> |free| == old(|free|) - need0 - 1 - need && procs == map[p := ProcInfo(PGSIZE, false)]
    {
      ghost var s := State();
      forall k ensures k !in pt { assert LaidOut(procs, s.pt, k); }
      assert pt == map[];
      ok := WalkAlloc(p, need0);
      if !ok || |src| >= PGSIZE { return false; }
      ok := Uvmfirst(p, src, need);
      if ok {
        FirstWorld(s, State(), p, src);
        procs := map[p := ProcInfo(PGSIZE, false)];
      }
    }

    /** uvmfirst on an empty page table. */
    method Uvmfirst(p: nat, src: seq<Byte>, need: nat) returns (ok: bool)
      requires Inv(State()) && pt == map[] && |src| < PGSIZE
      modifies this
      ensures Inv(State()) && procs == old(procs) && |cnt| == old(|cnt|)
      ensures ok <==> 1 + need <= old(|free|)
      ensures ok ==> |free| == old(|free|) - 1 - need && Charged(old(owner), owner, p)
      ensures ok ==> pt.Keys == {Key(p, 0)} && Look(State(), Key(p, 0)) == E.FirstPage(src)
    {
      ghost var s := State();
      var got, f := NewPage();
      if !got { return false; }
      ok := WalkAlloc(p, need);
      if ok { MapFirst(p, f, src); }
    }

    /** The mapping of the first page and the copy of the code. */
    method MapFirst(p: nat, f: nat, src: seq<Byte>)
      requires Inv(State()) && pt == map[] && |src| < PGSIZE && f in owner && mem[f] == Fill(0)
      modifies this`pt, this`owner, this`mem
      ensures Inv(State()) && owner == old(owner) - {f}
      ensures pt.Keys == {Key(p, 0)} && Look(State(), Key(p, 0)) == E.FirstPage(src)
    {
      var k, e := Key(p, 0), Pte(f, true, true, true, true, false);
      MapOwned(State(), k, e);
      pt := pt[k := e];
      owner := owner - {f};
      var page: Page := src + mem[f][|src|..];
      WriteKeeps(State(), k, page);
      mem := mem[f := page];
    }

    /** Give entry k, which is shared copy-on-write, a page of its own. */
    method Unshare(k: Key) returns (ok: bool)
      requires Valid() && k in pt && pt[k].cow
      modifies this
      ensures Valid() && procs == old(procs) && World() == old(World())
      ensures ok == (old(free) != [])
      ensures State() == if ok then BreakSharing(old(State()), k) else old(State())
    {
      ghost var s := State();
      if s.free != [] {
        BreakSharingKeeps(s, k);
        BreakSharingWorld(procs, s, k);
      }
      var shared := pt[k].frame;
      var got, f := Kalloc();
      if !got {
        return false;
      }
      mem := mem[f := mem[shared]];
      pt := pt[k := pt[k].(frame := f, w := true, cow := false)];
      owner := owner - {f};
      Kfree(shared);
      ok := true;
    }

    // -------------------------------------------------------------- trap.c

    /** Store page fault at va: copy the page if it is shared, otherwise kill the process.
        Without memory the handler unmaps the pages below and returns an error that
        usertrap ignores. */
    method HandlePagefault(p: nat, va: nat) returns (o: Outcome)
      requires Valid() && p in procs
      modifies this
      ensures o != Stripped ==> Valid()
      ensures var k := Key(p, va / PGSIZE);
              if k !in old(pt) || !old(pt)[k].cow then
                o == Killed && State() == old(State()) && procs == old(procs)[p := old(procs)[p].(killed := true)]
              else if old(free) == [] then
                o == Stripped && Lost(old(World()), procs, State(), p, va / PGSIZE) && procs == old(procs)
              else
                o == Done && State() == BreakSharing(old(State()), k) && procs == old(procs)
      ensures o == Done ==> World() == old(World())
    {
      var k := Key(p, va / PGSIZE);
      assert LaidOut(procs, pt, k);
      if va >= MAXVA || k !in pt || !pt[k].cow {
        procs := procs[p := procs[p].(killed := true)];
        forall j ensures LaidOut(procs, pt, j) {
          assert LaidOut(old(procs), pt, j);
        }
        return Killed;
      }
      var ok := Unshare(k);
      if ok { return Done; }
      forall v: nat | v < va / PGSIZE ensures Key(p, v) in pt {
        assert LaidOut(procs, pt, Key(p, v));
      }
      Uvmunmap(p, 0, va / PGSIZE);
      UnmappedLost(procs, old(State()), State(), p, va / PGSIZE);
      o := Stripped;
    }

    /** A store instruction: the hardware tries it, and faults into the kernel until it is
        allowed.  It stops short exactly when the page is shared and no page is free. */
    method UserStore(p: nat, va: nat, b: Byte) returns (o: Outcome)
      requires Valid() && p in procs
      modifies this
      ensures o == Stripped <==> var k := Key(p, va / PGSIZE); k in old(pt) && old(pt)[k].cow && old(free) == []
      ensures o == Stripped ==> procs == old(procs) && Lost(old(World()), procs, State(), p, va / PGSIZE)
      ensures o != Stripped ==> Valid() && World() == E.Store(old(World()), p, va, b)
      ensures o != Stripped ==> o == if E.MayStore(old(World())[p].pages, va) then Done else Killed
      ensures o != Stripped ==> |free| <= old(|free|) <= |free| + 1
      ensures var v, w := va / PGSIZE, old(World())[p].pages;
              o == Stripped || (o == Done <==> v < |w| && w[v].u && w[v].w)
      ensures o == Done ==> va / PGSIZE < |World()[p].pages| && World()[p].pages[va / PGSIZE].bytes[va % PGSIZE] == b
      ensures o == Done ==> E.OneByte(old(World()), World(), p, va, b)
      ensures o == Killed ==> World() == old(World())[p := old(World())[p].(killed := true)]
    {
      ghost var w := World();
      o := Faults(p, va);
      if o == Done {
        StoreByte(p, va, b);
      }
      E.StoreLaw(w, p, va, b);
    }

    /** One fault of a store instruction that is not allowed yet. */
    method Fault(p: nat, va: nat) returns (o: Outcome)
      requires Valid() && p in procs
      requires var k := Key(p, va / PGSIZE); !(k in pt && pt[k].w && pt[k].u)
      modifies this
      ensures o == Done || o == Killed || o == Stripped
      ensures o == Stripped <==> CowAt(old(State()), Key(p, va / PGSIZE)) && old(free) == []
      ensures o == Stripped ==> procs == old(procs) && Lost(old(World()), procs, State(), p, va / PGSIZE)
      ensures o != Stripped ==> Valid()
      ensures o == Done ==> World() == old(World()) && procs == old(procs) && |free| <= old(|free|) <= |free| + 1
      ensures o == Done ==> CowAt(old(State()), Key(p, va / PGSIZE)) && !CowAt(State(), Key(p, va / PGSIZE))
      ensures o == Killed ==> |free| == old(|free|) && !E.MayStore(old(World())[p].pages, va)
      ensures o == Killed ==> World() == old(World())[p := old(World())[p].(killed := true)]
    {
      var k := Key(p, va / PGSIZE);
      assert LaidOut(procs, pt, k);
      if CowAt(State(), k) && free != [] { BreakSharingFree(State(), k); }
      o := HandlePagefault(p, va);
    }

    /** The faults of a store instruction, until it is allowed. */
    method Faults(p: nat, va: nat) returns (o: Outcome)
      requires Valid() && p in procs
      modifies this
      ensures o == Done || o == Killed || o == Stripped
      ensures o == Stripped <==> CowAt(old(State()), Key(p, va / PGSIZE)) && old(free) == []
      ensures o == Stripped ==> procs == old(procs) && Lost(old(World()), procs, State(), p, va / PGSIZE)
      ensures o != Stripped ==> Valid() && |free| <= old(|free|) <= |free| + 1
      ensures o == Done ==> var k := Key(p, va / PGSIZE); World() == old(World()) && procs == old(procs) && k in pt && pt[k].w && pt[k].u
      ensures o == Killed ==> !E.MayStore(old(World())[p].pages, va) && World() == old(World())[p := old(World())[p].(killed := true)]
    {
      var k := Key(p, va / PGSIZE);
      while !(k in pt && pt[k].w && pt[k].u)
        invariant Valid() && procs == old(procs) && World() == old(World())
        invariant k in pt && pt[k].cow ==> State() == old(State())
        invariant k in old(pt) && old(pt)[k].cow && old(free) == [] ==> State() == old(State())
        invariant |free| <= old(|free|) <= |free| + 1
        decreases if k in pt && pt[k].cow then 1 else 0
      {
        o := Fault(p, va);
        if o != Done {
          return;
        }
      }
      assert ExclusiveAt(State(), k);
      o := Done;
    }

    /** The store itself, once the page is writable. */
    method StoreByte(p: nat, va: nat, b: Byte)
      requires Valid() && p in procs
      requires var k := Key(p, va / PGSIZE); k in pt && pt[k].w && pt[k].u
      modifies this
      ensures Valid() && World() == E.Store(old(World()), p, va, b) && E.MayStore(old(World())[p].pages, va)
      ensures free == old(free)
    {
      var k := Key(p, va / PGSIZE);
      assert LaidOut(procs, pt, k);
      var page: Page := mem[pt[k].frame][va % PGSIZE := b];
      WriteWorld(procs, State(), k, page);
      mem := mem[pt[k].frame := page];
    }

    // -------------------------------------------------------------- copyout, copyin

    /** The page of va is made private if it is shared. */
    method Reclaim(p: nat, v: nat) returns (ok: bool)
      requires Valid() && Key(p, v) in pt && (pt[Key(p, v)].cow || pt[Key(p, v)].w)
      modifies this
      ensures Valid() && procs == old(procs) && World() == old(World())
      ensures !ok <==> CowAt(old(State()), Key(p, v)) && old(free) == []
      ensures !ok ==> State() == old(State())
      ensures ok ==> Key(p, v) in pt && pt[Key(p, v)].w && Ahead(old(State()), State(), p, v + 1)
      ensures ok ==> |free| == old(|free|) - if Multi(old(State()), Key(p, v)) then 1 else 0
    {
      ghost var s := State();
      var k := Key(p, v);
      ok := true;
      if pt[k].cow {
        if s.free != [] {
          BreakSharingFree(s, k);
          forall u: nat | v + 1 <= u ensures AheadAt(s, BreakSharing(s, k), Key(p, u)) {
            BreakSharingAhead(s, k, Key(p, u));
          }
        }
        ok := Unshare(k);
      }
    }

    /** One turn of the loop of copyout: chunk stays within the page of va. */
    method CopyoutPage(p: nat, va: nat, chunk: seq<Byte>) returns (o: Outcome)
      requires Valid() && p in procs && va % PGSIZE + |chunk| <= PGSIZE
      modifies this
      ensures Valid() && procs == old(procs)
      ensures var w := old(World());
              if o == Done then
                && E.MayStore(w[p].pages, va)
                && World() == w[p := w[p].(pages := E.PutPage(w[p].pages, va / PGSIZE, va % PGSIZE, chunk))]
              else
                && World() == w && free == old(free)
                && (o == Failed || o == Panicked(0)) && (o == Failed <==> !E.MayStore(w[p].pages, va))
      ensures o == Panicked(0) ==> CowAt(old(State()), Key(p, va / PGSIZE)) && old(free) == []
      ensures o == Done ==> Passes(old(State()), State(), p, va / PGSIZE)
    {
      var k := Key(p, va / PGSIZE);
      assert LaidOut(procs, pt, k);
      if va >= MAXVA || k !in pt || !pt[k].u || !(pt[k].cow || pt[k].w) {
        return Failed;
      }
      ghost var s := State();
      var ok := Reclaim(p, va / PGSIZE);
      if !ok {
        return Panicked(0);
      }
      ghost var t := State();
      WritePage(k, va, chunk);
      forall u: nat | va / PGSIZE + 1 <= u ensures AheadAt(s, State(), Key(p, u)) { assert AheadAt(s, t, Key(p, u)); }
      o := Done;
    }

    method WritePage(k: Key, va: nat, chunk: seq<Byte>)
      requires Valid() && k in pt && pt[k].w && va / PGSIZE == k.vpn && va % PGSIZE + |chunk| <= PGSIZE && k.pid in procs
      modifies this`mem
      ensures Valid() && k.vpn < |old(World())[k.pid].pages|
      ensures var w := old(World());
              World() == w[k.pid := w[k.pid].(pages := E.PutPage(w[k.pid].pages, k.vpn, va % PGSIZE, chunk))]
    {
      assert LaidOut(procs, pt, k);
      var page: Page := E.Overlay(mem[pt[k].frame], va % PGSIZE, chunk);
      assert Look(State(), k).bytes == mem[pt[k].frame];
      WriteWorld(procs, State(), k, page);
      mem := mem[pt[k].frame := page];
    }

    /** One turn of the loop of copyout, counted from the world w before the loop. */
    method CopyoutTurn(ghost w: E.World, p: nat, dstva: nat, src: seq<Byte>, tot: nat) returns (o: Outcome, n: nat)
      requires Valid() && p in procs && p in w && tot < |src|
      requires World() == E.CopyoutUpTo(w, p, dstva, src, tot)
      modifies this
      ensures Valid() && procs == old(procs) && (o == Done || o == Failed || o == Panicked(0))
      ensures 0 < n && tot + n <= |src| && (dstva + tot) % PGSIZE + n <= PGSIZE
      ensures tot + n < |src| ==> (dstva + tot) % PGSIZE + n == PGSIZE
      ensures World() == E.CopyoutUpTo(w, p, dstva, src, if o == Done then tot + n else tot)
      ensures o == Done ==> E.AllStorable(w[p].pages, dstva + tot, n)
      ensures o == Failed <==> !E.MayStore(w[p].pages, dstva + tot)
      ensures o == Panicked(0) ==> CowAt(old(State()), Key(p, (dstva + tot) / PGSIZE)) && old(free) == []
      ensures if o == Done then Passes(old(State()), State(), p, (dstva + tot) / PGSIZE) else free == old(free)
    {
      n := PGSIZE - (dstva + tot) % PGSIZE;
      if n > |src| - tot {
        n := |src| - tot;
      }
      E.CopyoutStop(w, p, dstva, src, tot);
      o := CopyoutPage(p, dstva + tot, src[tot..tot + n]);
      if o == Done {
        E.CopyoutStep(w, p, dstva, src, tot, n);
      }
    }

    /** tot bytes are copied; the loop began in s with the world w and has come to page v. */
    ghost predicate Copying(s: Sys, w: E.World, p: nat, dstva: nat, src: seq<Byte>, tot: nat, v: nat)
      reads this
    {
      && Valid() && p in procs && p in w && tot <= |src|
      && World() == E.CopyoutUpTo(w, p, dstva, src, tot) && E.AllStorable(w[p].pages, dstva, tot)
      && CameTo(dstva, |src|, tot, v) && Drained(s, State(), p, dstva / PGSIZE, v)
    }

    method CopyoutNext(ghost s: Sys, ghost w: E.World, p: nat, dstva: nat, src: seq<Byte>, tot: nat, ghost v: nat)
      returns (o: Outcome, n: nat)
      requires Copying(s, w, p, dstva, src, tot, v) && tot < |src|
      modifies this
      ensures o == Done ==> 0 < n && Copying(s, w, p, dstva, src, tot + n, v + 1)
      ensures o != Done ==> Valid() && World() == E.CopyoutUpTo(w, p, dstva, src, tot)
      ensures o != Done ==> Stopped(s, w[p].pages, p, dstva, |src|, tot, v, o, |free|)
    {
      ghost var t := State();
      assert AheadAt(s, t, Key(p, v));
      o, n := CopyoutTurn(w, p, dstva, src, tot);
      if o == Done {
        NextTurn(dstva, |src|, tot, v, n);
        DrainStep(s, t, State(), p, dstva / PGSIZE, v);
      } else if o != Failed {
        o := Panicked(tot);
      }
    }

    /** The loop of copyout, with the number of bytes and the page it got to. */
    method CopyoutLoop(p: nat, dstva: nat, src: seq<Byte>) returns (o: Outcome, tot: nat, ghost v: nat)
      requires Valid() && p in procs
      modifies this
      ensures Valid() && p in old(World()) && tot <= |src|
      ensures World() == E.CopyoutUpTo(old(World()), p, dstva, src, tot)
      ensures E.AllStorable(old(World())[p].pages, dstva, tot)
      ensures Stopped(old(State()), old(World())[p].pages, p, dstva, |src|, tot, v, o, |free|)
    {
      ghost var s, w := State(), World();
      E.CopyoutNothing(w, p, dstva, src);
      tot, v := 0, dstva / PGSIZE;
      while tot < |src|
        invariant Copying(s, w, p, dstva, src, tot, v)
      {
        var n;
        o, n := CopyoutNext(s, w, p, dstva, src, tot, v);
        if o != Done {
          return;
        }
        tot, v := tot + n, v + 1;
      }
      o := Done;
    }

    /** Copy src to user address dstva; the bytes before the first failing page stay written.
        It panics exactly when it comes to a shared page and has no page left to copy it to. */
    method Copyout(p: nat, dstva: nat, src: seq<Byte>) returns (o: Outcome)
      requires Valid() && p in procs
      modifies this
      ensures Valid() && (o == Done || o == Failed || o.Panicked?)
      ensures var n := if o.Panicked? then o.stored else E.Storable(old(World())[p].pages, dstva, |src|);
              E.SomeBytes(old(World()), World(), p, dstva, src, n)
      ensures !o.Panicked? ==> World() == E.Copyout(old(World()), p, dstva, src)
      ensures !o.Panicked? ==> (o == Done <==> E.Storable(old(World())[p].pages, dstva, |src|) == |src|)
      ensures o.Panicked? ==> free == [] && o.stored < E.Storable(old(World())[p].pages, dstva, |src|)
      ensures o.Panicked? ==> World() == E.CopyoutUpTo(old(World()), p, dstva, src, o.stored)
      ensures o.Panicked? <==> exists v: nat :: StarvesAt(old(State()), p, dstva, E.Storable(old(World())[p].pages, dstva, |src|), v)
      ensures |free| <= old(|free|) <= |free| + Touched(dstva, |src|) && (o.Panicked? ==> old(|free|) < Touched(dstva, |src|))
    {
      var tot;
      ghost var s, w, v := State(), World(), 0;
      o, tot, v := CopyoutLoop(p, dstva, src);
      CopyoutEnds(s, w, p, dstva, src, tot, v, o, |free|);
    }

    /** Copy len bytes from user address srcva, as the process sees them. */
    method Copyin(p: nat, srcva: nat, len: nat) returns (ok: bool, dst: seq<Byte>)
      requires Valid() && p in procs
      ensures ok <==> forall a: nat :: srcva <= a < srcva + len ==> E.Readable(World()[p].pages, a)
      ensures ok ==> dst == E.Bytes(World()[p].pages, srcva, len)
      ensures if ok then Delivers(World()[p].pages, srcva, len, Gave(dst)) else !AllReadable(World()[p].pages, srcva, len)
    {
      ghost var pages := World()[p].pages;
      dst := [];
      while |dst| < len
        invariant |dst| <= len
        invariant forall a: nat :: srcva <= a < srcva + |dst| ==> E.Readable(pages, a)
        invariant dst == E.Bytes(pages, srcva, |dst|)
      {
        var va := srcva + |dst|;
        var k := Key(p, va / PGSIZE);
        assert LaidOut(procs, pt, k);
        if va >= MAXVA || k !in pt || !pt[k].u {
          assert !E.Readable(World()[p].pages, va);
          return false, [];
        }
        var n := PGSIZE - va % PGSIZE;
        if n > len - |dst| {
          n := len - |dst|;
        }
        assert pages[va / PGSIZE] == Look(State(), k);
        E.ReadChunk(pages, srcva, |dst|, n);
        dst := dst + mem[pt[k].frame][va % PGSIZE..va % PGSIZE + n];
      }
      ok := true;
      forall a: nat | srcva <= a < srcva + len ensures a / PGSIZE < |pages| && pages[a / PGSIZE].u {
        assert E.Readable(pages, a);
      }
      BytesLaw(pages, srcva, len);
    }

    // -------------------------------------------------------------- whole runs

    method Step(op: Op) returns (o: Outcome)
      requires Valid()
      modifies this
      ensures Allowed(old(World()), old(|free|), |free|, op, o)
      ensures o != Stripped ==> Valid() && World() == EagerStep(old(World()), op, o)
      ensures o == Stripped ==> op.Store? && Lost(old(World()), procs, State(), op.p, op.va / PGSIZE)
    {
      if op.p !in procs || (op.Fork? && op.c in procs) || (!op.Reap? && procs[op.p].killed) {
        return Failed;
      }
      if op.Store? {
        o := StoreStep(op);
      } else if op.Copyout? {
        o := CopyoutCall(op);
      } else {
        o := Call(op);
      }
    }

    method StoreStep(op: Op) returns (o: Outcome)
      requires Valid() && op.Store? && Applicable(World(), op)
      modifies this
      ensures Allowed(old(World()), old(|free|), |free|, op, o)
      ensures o != Stripped ==> Valid() && World() == EagerStep(old(World()), op, o)
      ensures o == Stripped ==> Lost(old(World()), procs, State(), op.p, op.va / PGSIZE)
    {
      o := UserStore(op.p, op.va, op.b);
    }

    method CopyoutCall(op: Op) returns (o: Outcome)
      requires Valid() && op.Copyout? && Applicable(World(), op)
      modifies this
      ensures Allowed(old(World()), old(|free|), |free|, op, o) && o != Stripped
      ensures Valid() && World() == EagerStep(old(World()), op, o)
    {
      o := this.Copyout(op.p, op.va, op.src);
    }

    /** fork, growproc, freeproc and copyin. */
    method Call(op: Op) returns (o: Outcome)
      requires Valid() && Applicable(World(), op) && !op.Store? && !op.Copyout?
      modifies this
      ensures Allowed(old(World()), old(|free|), |free|, op, o) && !Stops(o)
      ensures Valid() && World() == EagerStep(old(World()), op, o)
    {
      var ok := true;
      match op {
        case Fork(p, c, need0, need) => ok := this.Fork(p, c, need0, need);
        case Store(p, va, b) => assert false;
        case Copyout(p, va, src) => assert false;
        case Copyin(p, va, n) =>
          var dst;
          ok, dst := this.Copyin(p, va, n);
          return if ok then Gave(dst) else Failed;
        case Grow(p, n, need) => ok := this.Grow(p, n, need);
        case Shrink(p, n) => this.Shrink(p, n);
        case Reap(p) => this.Reap(p);
      }
      o := if ok then Done else Failed;
    }

    /** Any run is a run of the eager system.  It ends early only at a copyout or a store that
        finds no free page; after such a store the process has lost the pages below. */
    method Run(ops: seq<Op>) returns (outs: seq<Outcome>, ghost trail: seq<Moment>)
      requires Valid()
      modifies this
      ensures History(ops, outs, trail) && trail[0] == Moment(old(World()), old(|free|)) && trail[|outs|].free == |free|
      ensures Sized(trail[0].world)
      ensures |outs| < |ops| ==> outs != [] && Stops(outs[|outs| - 1])
      ensures if outs != [] && outs[|outs| - 1] == Stripped
              then var n := |outs| - 1; ops[n].Store? && Lost(trail[n].world, procs, State(), ops[n].p, ops[n].va / PGSIZE)
              else Valid() && World() == trail[|outs|].world
    {
      outs, trail := [], [Moment(World(), |free|)];
      while |outs| < |ops|
        invariant History(ops, outs, trail) && trail[0] == Moment(old(World()), old(|free|))
        invariant Valid() && trail[|outs|] == Moment(World(), |free|)
        invariant outs != [] ==> !Stops(outs[|outs| - 1])
      {
        var o;
        ghost var m;
        o, m := Next(ops, outs, trail);
        outs, trail := outs + [o], trail + [m];
        if Stops(o) {
          return;
        }
      }
    }

    /** The next operation of a run. */
    method Next(ops: seq<Op>, outs: seq<Outcome>, ghost trail: seq<Moment>) returns (o: Outcome, ghost m: Moment)
      requires Valid() && History(ops, outs, trail) && |outs| < |ops| && trail[|outs|] == Moment(World(), |free|)
      modifies this
      ensures History(ops, outs + [o], trail + [m]) && m.free == |free|
      ensures if o == Stripped
              then ops[|outs|].Store? && Lost(trail[|outs|].world, procs, State(), ops[|outs|].p, ops[|outs|].va / PGSIZE)
              else Valid() && World() == m.world
    {
      var op := ops[|outs|];
      o := Step(op);
      m := Moment(EagerStep(trail[|outs|].world, op, o), |free|);
      HistoryOn(ops, outs, trail, o, |free|);
    }
  }

  /** A shared writable page is marked copy-on-write. */
  lemma SharedIsCow(m: Machine, p: nat, c: nat, v: nat)
    requires m.Valid() && p in m.procs && v < E.Pages(m.procs[p].sz) && p != c
    requires Shared(m.pt, Key(p, v), Key(c, v)) && m.World()[p].pages[v].w
    ensures m.pt[Key(p, v)].cow
  {
    var s := m.State();
    assert m.World()[p].pages[v] == Look(s, Key(p, v));
    if s.pt[Key(p, v)].w { WritableIsAlone(s, Key(p, v), Key(c, v)); }
  }

  /** A machine of 14 pages with a process of two. */
  method TwoPages() returns (m: Machine)
    ensures fresh(m) && m.Valid() && |m.free| == 6 && m.procs == map[1 := ProcInfo(2 * PGSIZE, false)]
    ensures m.World()[1].pages == [E.FirstPage([7]), E.ZERO_PAGE]
  {
    m := new Machine(14);
    var ok := m.Userinit(1, [7], 4, 2);
    ok := m.Grow(1, PGSIZE, map[]);
  }

  /** It forks and has used up memory. */
  method TwoForked() returns (m: Machine)
    ensures fresh(m) && m.Valid() && m.free == [] && m.procs.Keys == {1, 2} && m.procs[1] == ProcInfo(2 * PGSIZE, false)
    ensures Shared(m.pt, Key(1, 1), Key(2, 1)) && m.World()[1].pages == [E.FirstPage([7]), E.ZERO_PAGE]
  {
    m := TwoPages();
    var need := map[0 := 2];
    assert Total(need, 0, 2) == 2 by { assert Total(need, 0, 1) == 2; }
    var ok := m.Fork(1, 2, 4, need);
  }

  /** Its second page is shared. */
  method Starved() returns (m: Machine)
    ensures fresh(m) && m.Valid() && m.free == [] && m.procs.Keys == {1, 2} && m.procs[1] == ProcInfo(2 * PGSIZE, false)
    ensures Key(1, 1) in m.pt && m.pt[Key(1, 1)].cow
  {
    m := TwoForked();
    SharedIsCow(m, 1, 2, 1);
  }

  /** Its next store to the second page leaves it alive without the first. */
  method StarvedStore() returns (m: Machine, o: Outcome)
    ensures o == Stripped && !m.Valid() && 1 in m.procs && !m.procs[1].killed && m.procs[1].sz == 2 * PGSIZE
    ensures Key(1, 0) !in m.pt && Key(1, 1) in m.pt
  {
    m := Starved();
    ghost var w := m.World();
    o := m.UserStore(1, PGSIZE, 9);
    assert LostAt(w, m.State(), 1, 1, Key(1, 0)) && LostAt(w, m.State(), 1, 1, Key(1, 1));
    LostIsNotLaidOut(w, m.procs, m.State(), 1, 1);
  }
}
