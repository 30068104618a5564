/**
 Block numbers, group bitmaps and free counts of an ext2 file system.  Block b is bit
 (b - first) % perGroup of group (b - first) / perGroup.
 */
module BlockBits {

  /** A group descriptor: the blocks of its two bitmaps and the start of its inode table. */
  datatype Desc = Desc(blockBitmap: nat, inodeBitmap: nat, inodeTable: nat)

  datatype Geo = Geo(first: nat, perGroup: nat, blocks: nat, descs: seq<Desc>, tableLen: nat)

  type Row = seq<bool>

  ghost predicate GeoOk(g: Geo) {
    && g.perGroup > 0 && g.perGroup % 8 == 0 && g.first < g.blocks
    && (g.blocks - 1 - g.first) / g.perGroup < |g.descs|
  }

  function GroupOf(g: Geo, b: nat): nat
    requires g.perGroup > 0 && g.first <= b
  {
    (b - g.first) / g.perGroup
  }

  function BitOf(g: Geo, b: nat): nat
    requires g.perGroup > 0 && g.first <= b
  {
    (b - g.first) % g.perGroup
  }

  /** Block k of group x, as ext2_group_first_block_no gives it. */
  function Number(g: Geo, x: nat, k: nat): nat {
    x * g.perGroup + g.first + k
  }

  /** Whether a block belongs to a group and its bit is set. */
  function InUse(g: Geo, rows: seq<Row>, b: nat): bool
    requires g.perGroup > 0
  {
    if b < g.first || GroupOf(g, b) >= |rows| || BitOf(g, b) >= |rows[GroupOf(g, b)]| then false
    else rows[GroupOf(g, b)][BitOf(g, b)]
  }

  lemma MulLess(a: nat, b: nat, n: nat)
    requires a < b
    ensures a * n + n <= b * n
  {
    assert b * n == a * n + n + (b - a - 1) * n;
  }

  /** Quotient and remainder are unique. */
  lemma Unique(q: nat, r: nat, x: nat, k: nat, n: nat)
    requires q * n + r == x * n + k && r < n && k < n
    ensures q == x && r == k
  {
    if q < x {
      MulLess(q, x, n);
    } else if x < q {
      MulLess(x, q, n);
    }
  }

  lemma DivOf(x: nat, k: nat, n: nat)
    requires k < n
    ensures (x * n + k) / n == x && (x * n + k) % n == k
  {
    var y := x * n + k;
    Unique(y / n, y % n, x, k, n);
  }

  /** A block number and its place in the groups determine each other. */
  lemma NumberOf(g: Geo, x: nat, k: nat, b: nat)
    requires g.perGroup > 0 && k < g.perGroup
    ensures Number(g, x, k) == b <==> b >= g.first && GroupOf(g, b) == x && BitOf(g, b) == k
  {
    DivOf(x, k, g.perGroup);
    if b >= g.first {
      assert b - g.first == (b - g.first) / g.perGroup * g.perGroup + (b - g.first) % g.perGroup;
    }
  }

  /** Blocks that follow one another inside a group have bits that follow one another. */
  lemma SameGroup(g: Geo, b: nat, i: nat)
    requires g.perGroup > 0 && g.first <= b && BitOf(g, b) + i < g.perGroup
    ensures GroupOf(g, b + i) == GroupOf(g, b) && BitOf(g, b + i) == BitOf(g, b) + i
  {
    var x, k := GroupOf(g, b), BitOf(g, b);
    NumberOf(g, x, k, b);
    NumberOf(g, x, k + i, b + i);
  }

  lemma GroupBound(g: Geo, b: nat)
    requires GeoOk(g) && g.first <= b < g.blocks
    ensures GroupOf(g, b) < |g.descs|
  {
    var n, y, z := g.perGroup, b - g.first, g.blocks - 1 - g.first;
    DivMono(y, z, n);
  }

  lemma DivMono(y: nat, z: nat, n: nat)
    requires y <= z && n > 0
    ensures y / n <= z / n
  {
    if z / n < y / n {
      MulLess(z / n, y / n, n);
    }
  }

  // ------------------------------------------------- counting clear bits

  function Clear(row: Row): nat {
    if row == [] then 0 else Clear(row[..|row| - 1]) + if row[|row| - 1] then 0 else 1
  }

  lemma {:induction false} ClearUpdate(row: Row, k: nat, v: bool)
    requires k < |row|
    ensures Clear(row[k := v]) + (if row[k] then 0 else 1) == Clear(row) + if v then 0 else 1
  {
    var n := |row| - 1;
    if k < n {
      ClearUpdate(row[..n], k, v);
      assert row[k := v][..n] == row[..n][k := v];
    } else {
      assert row[k := v][..n] == row[..n];
    }
  }

  lemma {:induction false} ClearZero(row: Row)
    ensures Clear(row) == 0 <==> forall k :: 0 <= k < |row| ==> row[k]
  {
    if row != [] {
      ClearZero(row[..|row| - 1]);
      assert row == row[..|row| - 1] + [row[|row| - 1]];
    }
  }

  /** The bits from lo to hi are given the value v, the others stay. */
  ghost predicate Painted(row: Row, to: Row, lo: nat, hi: nat, v: bool) {
    |to| == |row| && forall k :: 0 <= k < |row| ==> to[k] == if lo <= k < hi then v else row[k]
  }

  ghost predicate CountOk(rows: seq<Row>, free: seq<nat>, x: nat) {
    x < |rows| && x < |free| ==> free[x] == Clear(rows[x])
  }

  ghost predicate RowOk(g: Geo, rows: seq<Row>, x: nat) {
    x < |rows| ==> |rows[x]| == g.perGroup
  }

  /** Every group's free count is the number of clear bits in its bitmap. */
  ghost predicate Counted(g: Geo, rows: seq<Row>, free: seq<nat>) {
    && GeoOk(g) && |rows| == |g.descs| && |free| == |rows|
    && (forall x: nat :: RowOk(g, rows, x))
    && (forall x: nat :: CountOk(rows, free, x))
  }

  ghost predicate TiedAt(g: Geo, rows: seq<Row>, used: set<nat>, b: nat)
    requires g.perGroup > 0
  {
    b in used <==> InUse(g, rows, b)
  }

  /** The set of blocks in use is what the bitmaps say. */
  ghost predicate Tied(g: Geo, rows: seq<Row>, used: set<nat>)
    requires g.perGroup > 0
  {
    forall b: nat :: TiedAt(g, rows, used, b)
  }

  /** The block numbers from lo to hi. */
  function Span(lo: nat, hi: nat): set<nat> {
    set b: nat | lo <= b < hi && Between(lo, b, hi)
  }

  predicate Between(lo: nat, b: nat, hi: nat) {
    lo <= b < hi
  }

  /** Painting bits of one group changes exactly the blocks with those numbers. */
  lemma PaintedBlocks(g: Geo, rows: seq<Row>, to: Row, x: nat, lo: nat, hi: nat, v: bool, b: nat)
    requires g.perGroup > 0 && x < |rows| && |rows[x]| == g.perGroup && lo <= hi <= g.perGroup && Painted(rows[x], to, lo, hi, v)
    ensures var n := Number(g, x, lo); InUse(g, rows[x := to], b) == if n <= b < n + (hi - lo) then v else InUse(g, rows, b)
  {
    var n := Number(g, x, lo);
    if n <= b < n + (hi - lo) {
      NumberOf(g, x, lo + (b - n), b);
    } else if b >= g.first && GroupOf(g, b) == x {
      var k := BitOf(g, b);
      NumberOf(g, x, k, b);
    }
  }

  lemma PaintedTied(g: Geo, rows: seq<Row>, used: set<nat>, to: Row, x: nat, lo: nat, hi: nat, v: bool)
    requires g.perGroup > 0 && x < |rows| && |rows[x]| == g.perGroup && lo <= hi <= g.perGroup && Painted(rows[x], to, lo, hi, v)
    requires Tied(g, rows, used)
    ensures var span := Span(Number(g, x, lo), Number(g, x, lo) + (hi - lo));
            Tied(g, rows[x := to], if v then used + span else used - span)
  {
    var span := Span(Number(g, x, lo), Number(g, x, lo) + (hi - lo));
    var rows', used' := rows[x := to], if v then used + span else used - span;
    forall b: nat ensures TiedAt(g, rows', used', b) {
      assert TiedAt(g, rows, used, b);
      PaintedBlocks(g, rows, to, x, lo, hi, v, b);
    }
  }

  /** The bits of a run of blocks inside one group. */
  lemma RunBits(g: Geo, rows: seq<Row>, used: set<nat>, b: nat, i: nat)
    requires GeoOk(g) && Tied(g, rows, used)
    requires g.first <= b && BitOf(g, b) + i < g.perGroup && GroupOf(g, b) < |rows| && RowOk(g, rows, GroupOf(g, b))
    ensures b + i in used <==> rows[GroupOf(g, b)][BitOf(g, b) + i]
  {
    SameGroup(g, b, i);
    assert TiedAt(g, rows, used, b + i);
  }

  lemma PaintedCounts(g: Geo, rows: seq<Row>, free: seq<nat>, to: Row, x: nat, n: nat)
    requires Counted(g, rows, free) && x < |rows| && |to| == g.perGroup && n == Clear(to)
    ensures Counted(g, rows[x := to], free[x := n])
  {
    var rows', free' := rows[x := to], free[x := n];
    forall y: nat ensures RowOk(g, rows', y) { assert RowOk(g, rows, y); }
    forall y: nat ensures CountOk(rows', free', y) { assert CountOk(rows, free, y); }
  }

  // ------------------------------------------------- metadata

  /** The blocks that describe group x. */
  predicate MetaOf(g: Geo, x: nat, b: nat) {
    x < |g.descs| &&
    var d := g.descs[x];
    b == d.blockBitmap || b == d.inodeBitmap || d.inodeTable <= b < d.inodeTable + g.tableLen
  }

  predicate Meta(g: Geo, b: nat) {
    exists x :: 0 <= x < |g.descs| && MetaOf(g, x, b)
  }

  /** Block k of some group lies past the end of the file system. */
  ghost predicate Padding(g: Geo, x: nat, k: nat) {
    x < |g.descs| && k < g.perGroup && Number(g, x, k) >= g.blocks
  }

  /** The bits of metadata blocks and of the padding of the last group are set. */
  ghost predicate Reserved(g: Geo, used: set<nat>) {
    && (forall b: nat :: Meta(g, b) ==> b in used)
    && (forall x: nat, k: nat :: Padding(g, x, k) ==> Number(g, x, k) in used)
  }

  /** in_range */
  predicate InRange(b: nat, lo: nat, len: nat) {
    lo <= b < lo + len
  }

  /** The test made before blocks of group x are freed or handed out. */
  predicate HitsSystem(g: Geo, x: nat, block: nat, count: nat)
    requires x < |g.descs| && count > 0
  {
    var d := g.descs[x];
    || InRange(d.blockBitmap, block, count) || InRange(d.inodeBitmap, block, count)
    || InRange(block, d.inodeTable, g.tableLen) || InRange(block + count - 1, d.inodeTable, g.tableLen)
  }

  lemma HitIsMeta(g: Geo, x: nat, block: nat, count: nat)
    requires x < |g.descs| && count > 0 && HitsSystem(g, x, block, count)
    ensures exists b: nat :: block <= b < block + count && Meta(g, b)
  {
    var d := g.descs[x];
    var b := if InRange(d.blockBitmap, block, count) then d.blockBitmap
             else if InRange(d.inodeBitmap, block, count) then d.inodeBitmap
             else if InRange(block, d.inodeTable, g.tableLen) then block else block + count - 1;
    assert MetaOf(g, x, b) && Meta(g, b);
  }
}

/**
 kernel/ext2.c: freeing and allocating blocks, and truncating a file whose blocks hang
 from 12 direct, one single, one double and one triple indirect pointer.
 */
module Ext2Blocks {
  import opened BlockBits

  type Pointers = map<nat, seq<nat>>

  /** The pointer words of a block. */
  function Words(ptrs: Pointers, b: nat): seq<nat> {
    if b in ptrs then ptrs[b] else []
  }

  /** The blocks reached from pointer nr at a depth, children before the block itself. */
  function Tree(ptrs: Pointers, nr: nat, depth: nat): seq<nat>
    decreases depth, 0
  {
    if nr == 0 then [] else if depth == 0 then [nr] else Blocks(ptrs, Words(ptrs, nr), depth - 1) + [nr]
  }

  /** The blocks reached from an array of pointers, in the order they are freed. */
  function Blocks(ptrs: Pointers, words: seq<nat>, depth: nat): seq<nat>
    decreases depth, 1 + |words|
  {
    if words == [] then [] else Blocks(ptrs, words[..|words| - 1], depth) + Tree(ptrs, words[|words| - 1], depth)
  }

  predicate NoDup(list: seq<nat>) {
    forall i, j :: 0 <= i < j < |list| ==> list[i] != list[j]
  }

  /** A data block in use. */
  ghost predicate CanFree(g: Geo, used: set<nat>, b: nat) {
    g.first <= b < g.blocks && b in used && !Meta(g, b)
  }

  /** All blocks from lo to hi can be freed. */
  ghost predicate CanFreeSpan(g: Geo, used: set<nat>, lo: nat, hi: nat) {
    forall b: nat :: lo <= b < hi ==> CanFree(g, used, b)
  }

  /** How many of the blocks lie in the group of the first. */
  function InGroup(g: Geo, block: nat, count: nat): (n: nat)
    requires g.perGroup > 0 && g.first <= block
    ensures n <= count && (count > 0 ==> n > 0)
  {
    if BitOf(g, block) + count > g.perGroup then g.perGroup - BitOf(g, block) else count
  }

  /** None of the parts into which ext2_free_blocks cuts the blocks is taken for metadata. */
  ghost predicate NoHit(g: Geo, block: nat, count: nat)
    requires g.perGroup > 0 && g.first <= block
    decreases count
  {
    count == 0 ||
    var n := InGroup(g, block, count);
    GroupOf(g, block) < |g.descs| && !HitsSystem(g, GroupOf(g, block), block, n) && NoHit(g, block + n, count - n)
  }

  /** When ext2_free_blocks does not panic. */
  ghost predicate MayFree(g: Geo, used: set<nat>, block: nat, count: nat)
    requires g.perGroup > 0
  {
    g.first <= block && block + count <= g.blocks && NoHit(g, block, count) && Span(block, block + count) <= used
  }

  lemma {:induction false} CanFreeNoHit(g: Geo, used: set<nat>, block: nat, count: nat)
    requires GeoOk(g) && g.first <= block && block + count <= g.blocks && CanFreeSpan(g, used, block, block + count)
    ensures NoHit(g, block, count)
    decreases count
  {
    if count > 0 {
      var n := InGroup(g, block, count);
      GroupBound(g, block);
      var x := GroupOf(g, block);
      forall b: nat | block <= b < block + n ensures !Meta(g, b) { assert CanFree(g, used, b); }
      if HitsSystem(g, x, block, n) { HitIsMeta(g, x, block, n); }
      CanFreeNoHit(g, used, block + n, count - n);
    }
  }

  /** Data blocks in use can be freed. */
  lemma CanFreeMay(g: Geo, used: set<nat>, block: nat, count: nat)
    requires GeoOk(g) && count > 0 && CanFreeSpan(g, used, block, block + count)
    ensures MayFree(g, used, block, count)
  {
    var last: nat := block + count - 1;
    assert CanFree(g, used, block) && CanFree(g, used, last);
    CanFreeNoHit(g, used, block, count);
    forall b: nat | block <= b < block + count ensures b in used { assert CanFree(g, used, b); }
  }

  /** The test looks at the ends of a run only: an inode table inside it goes unnoticed. */
  lemma TableSlipsThrough()
    ensures var g := Geo(1, 16, 17, [Desc(2, 3, 6)], 2);
            GeoOk(g) && NoHit(g, 5, 4) && Meta(g, 6)
  {
    var g := Geo(1, 16, 17, [Desc(2, 3, 6)], 2);
    assert MetaOf(g, 0, 6);
    assert InGroup(g, 5, 4) == 4 && NoHit(g, 9, 0);
  }

  /** The blocks of the list are data blocks in use, none of them twice. */
  ghost predicate Freeable(g: Geo, used: set<nat>, list: seq<nat>) {
    NoDup(list) && forall i :: 0 <= i < |list| ==> CanFree(g, used, list[i])
  }

  /** A run of block numbers. */
  function Numbers(block: nat, count: nat): (r: seq<nat>)
    ensures |r| == count
  {
    seq(count, i requires 0 <= i => block + i)
  }

  lemma NumbersHave(block: nat, count: nat, b: nat)
    ensures b in Numbers(block, count) <==> block <= b < block + count
  {
    if block <= b < block + count { assert Numbers(block, count)[b - block] == b; }
  }

  lemma NumbersElems(block: nat, count: nat)
    ensures Elems(Numbers(block, count)) == Span(block, block + count)
  {
    forall b: nat ensures b in Elems(Numbers(block, count)) <==> b in Span(block, block + count) { NumbersHave(block, count, b); }
  }

  ghost function Elems(list: seq<nat>): set<nat> {
    set b | b in list
  }

  lemma ElemsConcat(a: seq<nat>, b: seq<nat>)
    ensures Elems(a + b) == Elems(a) + Elems(b)
  {
  }

  /** The blocks of the first pointers come first. */
  lemma {:induction false} BlocksPrefix(ptrs: Pointers, words: seq<nat>, p: nat, depth: nat)
    requires p <= |words|
    ensures Blocks(ptrs, words[..p], depth) <= Blocks(ptrs, words, depth)
    decreases |words|
  {
    if p == |words| {
      assert words[..p] == words;
    } else {
      var front := words[..|words| - 1];
      BlocksPrefix(ptrs, front, p, depth);
      assert front[..p] == words[..p];
    }
  }

  /** Two sets of pointer blocks agree on what a list of blocks holds. */
  ghost predicate Agree(p: Pointers, q: Pointers, list: seq<nat>) {
    forall i :: 0 <= i < |list| ==> Words(p, list[i]) == Words(q, list[i])
  }

  lemma AgreeSplit(p: Pointers, q: Pointers, a: seq<nat>, b: seq<nat>)
    requires Agree(p, q, a + b)
    ensures Agree(p, q, a) && Agree(p, q, b)
  {
    var list := a + b;
    forall i | 0 <= i < |a| ensures Words(p, a[i]) == Words(q, a[i]) { assert list[i] == a[i]; }
    forall i | 0 <= i < |b| ensures Words(p, b[i]) == Words(q, b[i]) { assert list[|a| + i] == b[i]; }
  }

  /** Only blocks of the list have changed. */
  ghost predicate SameElsewhere(p: Pointers, q: Pointers, list: seq<nat>) {
    forall b: nat :: b !in list ==> Words(q, b) == Words(p, b)
  }

  lemma ElsewhereConcat(p: Pointers, q: Pointers, r: Pointers, a: seq<nat>, b: seq<nat>)
    requires SameElsewhere(p, q, a) && SameElsewhere(q, r, b)
    ensures SameElsewhere(p, r, a + b)
  {
  }

  lemma DisjointAgree(p: Pointers, q: Pointers, done: seq<nat>, next: seq<nat>)
    requires SameElsewhere(p, q, done) && NoDup(done + next)
    ensures Agree(p, q, next)
  {
    var list := done + next;
    forall i | 0 <= i < |next| ensures Words(p, next[i]) == Words(q, next[i]) {
      forall j | 0 <= j < |done| ensures done[j] != next[i] { assert list[j] != list[|done| + i]; }
    }
  }

  /** The blocks reached depend only on the pointer blocks among them. */
  lemma {:induction false} TreeFrame(p: Pointers, q: Pointers, nr: nat, depth: nat)
    requires Agree(p, q, Tree(p, nr, depth))
    ensures Tree(q, nr, depth) == Tree(p, nr, depth)
    decreases depth, 0
  {
    if nr != 0 && depth > 0 {
      var sub := Blocks(p, Words(p, nr), depth - 1);
      AgreeSplit(p, q, sub, [nr]);
      assert Words(q, [nr][0]) == Words(p, [nr][0]);
      BlocksFrame(p, q, Words(p, nr), depth - 1);
    }
  }

  lemma {:induction false} BlocksFrame(p: Pointers, q: Pointers, words: seq<nat>, depth: nat)
    requires Agree(p, q, Blocks(p, words, depth))
    ensures Blocks(q, words, depth) == Blocks(p, words, depth)
    decreases depth, 1 + |words|
  {
    if words != [] {
      var n := |words| - 1;
      AgreeSplit(p, q, Blocks(p, words[..n], depth), Tree(p, words[n], depth));
      BlocksFrame(p, q, words[..n], depth);
      TreeFrame(p, q, words[n], depth);
    }
  }

  /** What is left of a freeable list can still be freed once its beginning is. */
  lemma FreeableRest(g: Geo, used: set<nat>, done: seq<nat>, next: seq<nat>)
    requires Freeable(g, used, done + next)
    ensures Freeable(g, used, done) && Freeable(g, used - Elems(done), next)
  {
    var list := done + next;
    forall i | 0 <= i < |done| ensures CanFree(g, used, done[i]) { assert list[i] == done[i]; }
    forall i, j | 0 <= i < j < |done| ensures done[i] != done[j] { assert list[i] != list[j]; }
    forall i, j | 0 <= i < j < |next| ensures next[i] != next[j] { assert list[|done| + i] != list[|done| + j]; }
    forall i | 0 <= i < |next| ensures CanFree(g, used - Elems(done), next[i]) {
      assert list[|done| + i] == next[i];
      forall j | 0 <= j < |done| ensures done[j] != next[i] { assert list[j] != list[|done| + i]; }
    }
  }

  lemma FreeablePrefix(g: Geo, used: set<nat>, a: seq<nat>, list: seq<nat>)
    requires Freeable(g, used, list) && a <= list
    ensures Freeable(g, used, a)
  {
    assert list == a + list[|a|..];
    FreeableRest(g, used, a, list[|a|..]);
  }

  lemma FreeableRun(g: Geo, used: set<nat>, block: nat, count: nat)
    requires Freeable(g, used, Numbers(block, count))
    ensures CanFreeSpan(g, used, block, block + count)
  {
    forall b: nat | block <= b < block + count ensures CanFree(g, used, b) { assert Numbers(block, count)[b - block] == b; }
  }

  /** All blocks of a file, in the order ext2_itrunc frees them. */
  function FileBlocks(ptrs: Pointers, data: seq<nat>): seq<nat>
    requires |data| == 15
  {
    Blocks(ptrs, data[..12], 0) + Tree(ptrs, data[12], 1) + Tree(ptrs, data[13], 2) + Tree(ptrs, data[14], 3)
  }

  /** Pointer nr leads to block x over at most depth blocks of pointers. */
  ghost predicate Leads(ptrs: Pointers, nr: nat, depth: nat, x: nat)
    decreases depth
  {
    nr != 0 && (x == nr || (depth > 0 && exists k :: 0 <= k < |Words(ptrs, nr)| && Leads(ptrs, Words(ptrs, nr)[k], depth - 1, x)))
  }

  lemma {:induction false} TreeLeads(ptrs: Pointers, nr: nat, depth: nat, x: nat)
    ensures x in Tree(ptrs, nr, depth) <==> Leads(ptrs, nr, depth, x)
    decreases depth, 0
  {
    if nr != 0 && depth > 0 {
      var words, d := Words(ptrs, nr), depth - 1;
      BlocksLead(ptrs, words, d, x);
      if k: nat :| WordLeads(ptrs, words, d, x, k) { assert Leads(ptrs, words[k], d, x); }
      if k :| 0 <= k < |words| && Leads(ptrs, words[k], d, x) { assert WordLeads(ptrs, words, d, x, k); }
    }
  }

  lemma {:induction false} BlocksLead(ptrs: Pointers, words: seq<nat>, depth: nat, x: nat)
    ensures x in Blocks(ptrs, words, depth) <==> exists k: nat :: WordLeads(ptrs, words, depth, x, k)
    decreases depth, 1 + |words|
  {
    if words != [] {
      var n := |words| - 1;
      BlocksLead(ptrs, words[..n], depth, x);
      TreeLeads(ptrs, words[n], depth, x);
      LastWord(ptrs, words, words[..n], depth, x);
    }
  }

  ghost predicate WordLeads(ptrs: Pointers, words: seq<nat>, depth: nat, x: nat, k: nat) {
    k < |words| && Leads(ptrs, words[k], depth, x)
  }

  lemma LastWord(ptrs: Pointers, words: seq<nat>, some: seq<nat>, depth: nat, x: nat)
    requires words != [] && some == words[..|words| - 1]
    ensures (exists k: nat :: WordLeads(ptrs, words, depth, x, k)) <==>
            (exists k: nat :: WordLeads(ptrs, some, depth, x, k)) || Leads(ptrs, words[|words| - 1], depth, x)
  {
    var n := |words| - 1;
    if k: nat :| WordLeads(ptrs, words, depth, x, k) {
      if k < n { assert WordLeads(ptrs, some, depth, x, k); }
    }
    if k: nat :| WordLeads(ptrs, some, depth, x, k) { assert WordLeads(ptrs, words, depth, x, k); }
    if Leads(ptrs, words[n], depth, x) { assert WordLeads(ptrs, words, depth, x, n); }
  }

  /** The pointer leads to x, directly for the first twelve, over one block of pointers for the
      thirteenth, two for the fourteenth and three for the fifteenth. */
  ghost predicate LeadsAt(ptrs: Pointers, data: seq<nat>, i: nat, x: nat) {
    i < |data| && Leads(ptrs, data[i], if i < 12 then 0 else i - 11, x)
  }

  /** The blocks of a file are all those its fifteen pointers lead to. */
  lemma FileReach(ptrs: Pointers, data: seq<nat>, x: nat)
    requires |data| == 15
    ensures x in FileBlocks(ptrs, data) <==> exists i: nat :: LeadsAt(ptrs, data, i, x)
  {
    BlocksLead(ptrs, data[..12], 0, x);
    TreeLeads(ptrs, data[12], 1, x);
    TreeLeads(ptrs, data[13], 2, x);
    TreeLeads(ptrs, data[14], 3, x);
    if k: nat :| WordLeads(ptrs, data[..12], 0, x, k) { assert LeadsAt(ptrs, data, k, x); }
    if i: nat :| LeadsAt(ptrs, data, i, x) {
      if i < 12 { assert WordLeads(ptrs, data[..12], 0, x, i); }
    }
    if Leads(ptrs, data[12], 1, x) { assert LeadsAt(ptrs, data, 12, x); }
    if Leads(ptrs, data[13], 2, x) { assert LeadsAt(ptrs, data, 13, x); }
    if Leads(ptrs, data[14], 3, x) { assert LeadsAt(ptrs, data, 14, x); }
  }

  /** Freeing data blocks leaves metadata and padding marked. */
  lemma ReservedKept(g: Geo, used: set<nat>, list: seq<nat>)
    requires Reserved(g, used) && Freeable(g, used, list)
    ensures Reserved(g, used - Elems(list))
  {
    forall b: nat | Meta(g, b) ensures b !in list {
      forall i | 0 <= i < |list| ensures list[i] != b { assert CanFree(g, used, list[i]); }
    }
    forall x: nat, k: nat | Padding(g, x, k) ensures Number(g, x, k) !in list {
      forall i | 0 <= i < |list| ensures list[i] != Number(g, x, k) { assert CanFree(g, used, list[i]); }
    }
  }

  function Zeros(n: nat): (z: seq<nat>)
    ensures |z| == n && forall i :: 0 <= i < n ==> z[i] == 0
  {
    seq(n, _ => 0)
  }

  ghost predicate AllSet(rows: seq<Row>, x: nat, lo: nat, hi: nat) {
    x < |rows| && hi <= |rows[x]| && forall k :: lo <= k < hi ==> rows[x][k]
  }

  // ------------------------------------------------- searching a bitmap

  ghost predicate RowSet(row: Row, lo: nat, hi: nat) {
    forall k :: lo <= k < hi && k < |row| ==> row[k]
  }

  ghost predicate RowClear(row: Row, lo: nat, hi: nat) {
    hi <= |row| && forall k :: lo <= k < hi ==> !row[k]
  }

  /** Bit i of memory from the start of a bitmap on: the bitmap and what lies past it. */
  function MemBit(row: Row, past: nat -> bool, i: nat): bool {
    if i < |row| then row[i] else past(i)
  }

  ghost predicate MemSet(row: Row, past: nat -> bool, lo: nat, hi: nat) {
    forall i: nat :: lo <= i < hi ==> MemBit(row, past, i)
  }

  /** The lowest clear bit of memory. */
  ghost predicate Lowest(row: Row, past: nat -> bool, i: nat) {
    !MemBit(row, past, i) && MemSet(row, past, 0, i)
  }

  /** riscv_ctzl of the inverted 64-bit word idx, from its bit b on; 64 when none is clear. */
  method ClearInWord(row: Row, past: nat -> bool, idx: nat, b0: nat) returns (b: nat)
    requires b0 <= 64
    ensures b0 <= b <= 64 && MemSet(row, past, 64 * idx + b0, 64 * idx + b)
    ensures b < 64 ==> !MemBit(row, past, 64 * idx + b)
  {
    b := b0;
    while b < 64 && MemBit(row, past, 64 * idx + b)
      invariant b0 <= b <= 64 && MemSet(row, past, 64 * idx + b0, 64 * idx + b)
    {
      b := b + 1;
    }
  }

  /** find_next_zero_bit: the words have 64 bits but are counted as if they had 32, so the
      result is a hint.  From offset 0 it is never above the lowest clear bit. */
  method FindZeroBit(row: Row, past: nat -> bool, size: nat, offset: nat) returns (r: nat)
    requires size <= |row| && offset <= size
    ensures offset <= r <= size
    ensures offset == 0 ==> RowSet(row, 0, r)
    ensures offset == 0 && r < size ==> exists low: nat :: Lowest(row, past, low) && r == low / 64 * 32 + low % 64
  {
    if offset >= size { return size; }
    var idx: nat, bit: nat := offset / 32, offset % 32;
    while true
      invariant bit < 64 && 32 * idx < size && 32 * idx + bit >= offset
      invariant offset == 0 ==> MemSet(row, past, 0, 64 * idx + bit)
      decreases size - 32 * idx
    {
      var b := ClearInWord(row, past, idx, bit);
      if b < 64 {
        ghost var low := 64 * idx + b;
        assert offset == 0 ==> Lowest(row, past, low);
        SetBelow(row, past, low, offset == 0);
        return if 32 * idx + b < size then 32 * idx + b else size;
      }
      idx, bit := idx + 1, 0;
      if 32 * idx >= size {
        SetBelow(row, past, 64 * idx, offset == 0);
        return size;
      }
    }
  }

  lemma SetBelow(row: Row, past: nat -> bool, n: nat, known: bool)
    requires known ==> MemSet(row, past, 0, n)
    ensures known ==> RowSet(row, 0, n)
  {
    if known {
      forall k | 0 <= k < n && k < |row| ensures row[k] { assert MemBit(row, past, k); }
    }
  }

  /** memscan for a zero byte: the lowest byte from `from` without a set bit, or to. */
  method ScanZeroByte(row: Row, from: nat, to: nat) returns (r: nat)
    requires from <= to && 8 * to <= |row|
    ensures from <= r <= to
    ensures r < to ==> RowClear(row, 8 * r, 8 * r + 8)
    ensures forall b :: from <= b < r ==> !RowClear(row, 8 * b, 8 * b + 8)
  {
    r := from;
    while r < to && (exists k :: 8 * r <= k < 8 * r + 8 && row[k])
      invariant from <= r <= to
      invariant forall b :: from <= b < r ==> !RowClear(row, 8 * b, 8 * b + 8)
    {
      r := r + 1;
    }
  }

  /** find_next_usable_block: a hint near start, the start of a clear byte, or a hint from
      start; -1 when there is none.  From start 0 a hint at a set bit has only set bits below. */
  method FindNextUsable(row: Row, past: nat -> bool, start: nat, max: nat) returns (r: int)
    requires max == |row| && max % 8 == 0 && start <= max
    ensures r >= 0 ==> start <= r < max
    ensures start == 0 && r < 0 ==> RowSet(row, 0, max)
    ensures start == 0 && r >= 0 && row[r] ==> RowSet(row, 0, r)
  {
    if start > 0 {
      var endGoal := (start + 63) / 64 * 64;
      if endGoal > max { endGoal := max; }
      var here := FindZeroBit(row, past, endGoal, start);
      if here < endGoal { return here; }
    }
    var b := ScanZeroByte(row, start / 8, max / 8);
    var next := 8 * b;
    if next < max && next >= start {
      assert !row[8 * b];
      return next;
    }
    var any := FindZeroBit(row, past, max, start);
    return if any < max then any else -1;
  }

  /** The first half of ext2_try_to_allocate, up to the bit that is free. */
  method ChooseBit(row: Row, past: nat -> bool, goal: int) returns (g: int)
    requires |row| % 8 == 0 && goal < |row|
    ensures g < 0 <==> RowSet(row, if goal > 0 then goal else 0, |row|)
    ensures g >= 0 ==> goal <= g < |row| && !row[g] && (goal >= 0 ==> RowSet(row, goal, g))
  {
    var start := if goal > 0 then goal else 0;
    g := goal;
    if g < 0 {
      g := FindNextUsable(row, past, start, |row|);
      if g < 0 { return -1; }
      var i := 0;
      while i < 7 && g > start && !row[g - 1]
        invariant start <= g < |row| && (row[g] ==> RowSet(row, start, g))
        decreases g
      {
        i, g := i + 1, g - 1;
      }
    }
    while row[g]
      invariant start <= g < |row| && (row[g] || goal >= 0 ==> RowSet(row, start, g))
      decreases |row| - g
    {
      g := g + 1;
      if g >= |row| { return -1; }
    }
  }

  /** The second half: the run of clear bits from first, at most count of them. */
  method ClaimRun(row: Row, first: nat, count: nat) returns (num: nat, to: Row)
    requires first < |row| && !row[first]
    ensures 0 < num && first + num <= |row| && (num <= count || num == 1)
    ensures RowClear(row, first, first + num) && Painted(row, to, first, first + num, true)
    ensures Clear(to) + num == Clear(row)
    ensures num < count && first + num < |row| ==> row[first + num]
  {
    ClearUpdate(row, first, true);
    to := row[first := true];
    num := 1;
    var g := first + 1;
    while num < count && g < |row| && !to[g]
      invariant g == first + num && 0 < num && g <= |row| && (num <= count || num == 1)
      invariant RowClear(row, first, g) && Painted(row, to, first, g, true) && Clear(to) + num == Clear(row)
    {
      ClearUpdate(to, g, true);
      to := to[g := true];
      num, g := num + 1, g + 1;
    }
  }

  /** ext2_try_to_allocate: the bits of one run, set in the returned row; -1 when no bit
      from the goal on is clear.  A negative goal starts from a hint for the whole group;
      while the bit tried is busy the next one is. */
  method TryToAllocate(row: Row, past: nat -> bool, goal: int, count: nat) returns (r: int, num: nat, to: Row)
    requires |row| % 8 == 0 && goal < |row|
    ensures r < 0 <==> RowSet(row, if goal > 0 then goal else 0, |row|)
    ensures r < 0 ==> num == 0 && to == row
    ensures r >= 0 ==> goal <= r && 0 < num && r + num <= |row| && (num <= count || num == 1)
    ensures r >= 0 ==> RowClear(row, r, r + num) && Painted(row, to, r, r + num, true)
    ensures r >= 0 ==> Clear(to) + num == Clear(row)
    ensures r >= 0 && num < count && r + num < |row| ==> row[r + num]
    ensures goal >= 0 && r >= 0 ==> RowSet(row, goal, r)
  {
    r := ChooseBit(row, past, goal);
    if r < 0 { return -1, 0, row; }
    num, to := ClaimRun(row, r, count);
  }

  /** Point: bmap stores pointers in block b.  Truncate: itrunc of an inode with these fifteen
      pointers. */
  datatype Op =
    | Alloc(goal: nat, past: (nat, nat) -> bool, count: nat)
    | Free(block: nat, count: nat)
    | Point(b: nat, words: seq<nat>)
    | Truncate(words: seq<nat>)

  datatype Reply = Got(ret: nat, num: nat) | NoSpace | Freed | Panic | Stored

  /** The blocks in use and the pointers in blocks. */
  datatype Vol = Vol(used: set<nat>, ptrs: Pointers)

  /** A free names at least one block, as every caller's does; an inode has fifteen pointers. */
  predicate OpOk(op: Op) {
    (op.Free? ==> op.count > 0) && (op.Truncate? ==> |op.words| == 15)
  }

  /** Where a run stops: at a free of metadata, and at the truncation of a tree that is not
      made of distinct data blocks in use. */
  ghost predicate Unsound(g: Geo, v: Vol, op: Op)
    requires g.perGroup > 0 && OpOk(op)
  {
    match op
    case Alloc(_, _, _) => false
    case Free(block, count) => exists b :: block <= b < block + count && Meta(g, b)
    case Point(_, _) => false
    case Truncate(words) => !Freeable(g, v.used, FileBlocks(v.ptrs, words))
  }

  /** What a call may answer: an allocation finds blocks that were not in use, or every block
      is; a free panics exactly when it may not free. */
  ghost predicate ReplyOk(g: Geo, v: Vol, op: Op, r: Reply)
    requires g.perGroup > 0
  {
    match op
    case Alloc(goal, _, count) => if r.Got? then GotOk(g, v.used, goal, count, r) else r == NoSpace && Span(g.first, g.blocks) <= v.used
    case Free(block, count) => r == if MayFree(g, v.used, block, count) then Freed else Panic
    case Point(_, _) => r == Stored
    case Truncate(_) => r == Freed
  }

  /** The blocks of an allocation were not in use, and those between the goal and the first of
      them in the goal's group were. */
  ghost predicate GotOk(g: Geo, used: set<nat>, goal: nat, count: nat, r: Reply)
    requires g.perGroup > 0 && r.Got?
  {
    && 0 < r.num && (r.num <= count || r.num == 1)
    && g.first <= r.ret && r.ret + r.num <= g.blocks && Span(r.ret, r.ret + r.num) !! used
    && forall b: nat :: SkippedAt(g, used, Clamp(g, goal), r.ret, b)
  }

  /** A goal outside the file system is taken as its first block. */
  function Clamp(g: Geo, goal: nat): nat {
    if goal < g.first || goal >= g.blocks then g.first else goal
  }

  /** Block b of the goal's group, from the goal on and before the block found, is in use. */
  ghost predicate SkippedAt(g: Geo, used: set<nat>, goal: nat, ret: nat, b: nat)
    requires g.perGroup > 0
  {
    && g.first <= goal <= b < g.blocks && GroupOf(g, b) == GroupOf(g, goal)
    && !(goal <= ret <= b && GroupOf(g, ret) == GroupOf(g, goal))
    ==> b in used
  }

  /** The bits from that of the goal to hi are set. */
  lemma Skipped(g: Geo, rows: seq<Row>, used: set<nat>, goal: nat, hi: nat, ret: nat, b: nat)
    requires g.perGroup > 0 && Tied(g, rows, used) && g.first <= goal && GroupOf(g, goal) < |rows|
    requires |rows[GroupOf(g, goal)]| == g.perGroup && RowSet(rows[GroupOf(g, goal)], BitOf(g, goal), hi)
    requires hi == g.perGroup || (BitOf(g, goal) <= hi < g.perGroup && ret == Number(g, GroupOf(g, goal), hi))
    ensures SkippedAt(g, used, goal, ret, b)
  {
    if g.first <= goal <= b && GroupOf(g, b) == GroupOf(g, goal) {
      var x := GroupOf(g, goal);
      NumberOf(g, x, BitOf(g, goal), goal);
      NumberOf(g, x, BitOf(g, b), b);
      if hi < g.perGroup { NumberOf(g, x, hi, ret); }
      assert TiedAt(g, rows, used, b);
    }
  }

  /** What a call leaves: only a truncation has a choice, what it writes to freed pointer blocks. */
  ghost predicate Leaves(v: Vol, op: Op, r: Reply, w: Vol) {
    match op
    case Alloc(_, _, _) => w == Vol(if r.Got? then v.used + Span(r.ret, r.ret + r.num) else v.used, v.ptrs)
    case Free(block, count) => w == Vol(if r == Freed then v.used - Span(block, block + count) else v.used, v.ptrs)
    case Point(b, words) => w == Vol(v.used, v.ptrs[b := words])
    case Truncate(words) =>
      |words| == 15 && w.used == v.used - Elems(FileBlocks(v.ptrs, words)) && SameElsewhere(v.ptrs, w.ptrs, FileBlocks(v.ptrs, words))
  }

  /** The operation gives up block x. */
  ghost predicate GivesUp(v: Vol, op: Op, x: nat) {
    (op.Free? && op.block <= x < op.block + op.count) || (op.Truncate? && |op.words| == 15 && x in FileBlocks(v.ptrs, op.words))
  }

  lemma UsedStep(g: Geo, v: Vol, op: Op, r: Reply, w: Vol, x: nat)
    requires g.perGroup > 0 && OpOk(op) && Leaves(v, op, r, w) && x in v.used && !GivesUp(v, op, x)
    ensures x in w.used
  {
  }

  /** A free block at the goal is the one that is taken. */
  lemma GoalTaken(g: Geo, used: set<nat>, goal: nat, count: nat, r: Reply)
    requires g.perGroup > 0 && r.Got? && GotOk(g, used, goal, count, r) && g.first <= goal < g.blocks && goal !in used
    ensures r.ret == goal
  {
    assert SkippedAt(g, used, Clamp(g, goal), r.ret, goal);
  }

  ghost predicate StepAt(g: Geo, ops: seq<Op>, rs: seq<Reply>, trail: seq<Vol>, k: nat)
    requires g.perGroup > 0
  {
    k < |ops| && k < |rs| && k + 1 < |trail| ==>
      OpOk(ops[k]) && !Unsound(g, trail[k], ops[k]) && ReplyOk(g, trail[k], ops[k], rs[k]) && Leaves(trail[k], ops[k], rs[k], trail[k + 1])
  }

  /** A run from trail[0]: every reply is right for the blocks in use before it. */
  ghost predicate History(g: Geo, ops: seq<Op>, rs: seq<Reply>, trail: seq<Vol>)
    requires g.perGroup > 0
  {
    |rs| <= |ops| && |trail| == |rs| + 1 && forall k: nat :: StepAt(g, ops, rs, trail, k)
  }

  lemma HistoryOn(g: Geo, ops: seq<Op>, rs: seq<Reply>, trail: seq<Vol>, v: Vol, r: Reply, w: Vol)
    requires g.perGroup > 0 && History(g, ops, rs, trail) && |rs| < |ops| && v == trail[|rs|]
    requires OpOk(ops[|rs|]) && !Unsound(g, v, ops[|rs|]) && ReplyOk(g, v, ops[|rs|], r) && Leaves(v, ops[|rs|], r, w)
    ensures History(g, ops, rs + [r], trail + [w])
  {
    var more, long := rs + [r], trail + [w];
    forall k: nat ensures StepAt(g, ops, more, long, k) { assert StepAt(g, ops, rs, trail, k); }
  }

  /** With every bit set every block of the file system is in use. */
  lemma AllFull(g: Geo, rows: seq<Row>, used: set<nat>)
    requires GeoOk(g) && |rows| == |g.descs| && Tied(g, rows, used) && forall x: nat :: RowOk(g, rows, x)
    ensures (forall x: nat :: x < |rows| ==> RowSet(rows[x], 0, |rows[x]|)) ==> Span(g.first, g.blocks) <= used
  {
    if forall x: nat :: x < |rows| ==> RowSet(rows[x], 0, |rows[x]|) {
      forall b: nat | g.first <= b < g.blocks ensures b in used {
        GroupBound(g, b);
        var x := GroupOf(g, b);
        assert RowOk(g, rows, x) && TiedAt(g, rows, used, b) && RowSet(rows[x], 0, |rows[x]|);
      }
    }
  }

  /** Freeing blocks of the file system that are not metadata leaves the reserved ones. */
  lemma FreedReserved(g: Geo, used: set<nat>, op: Op)
    requires g.perGroup > 0 && Reserved(g, used) && op.Free? && op.block + op.count <= g.blocks
    requires forall b :: op.block <= b < op.block + op.count ==> !Meta(g, b)
    ensures Reserved(g, used - Span(op.block, op.block + op.count))
  {
    forall b: nat | Meta(g, b) ensures b !in Span(op.block, op.block + op.count) {}
  }

  lemma AllSkipped(g: Geo, rows: seq<Row>, used: set<nat>, goal: nat, hi: nat, ret: nat)
    requires g.perGroup > 0 && Tied(g, rows, used) && g.first <= goal && GroupOf(g, goal) < |rows|
    requires |rows[GroupOf(g, goal)]| == g.perGroup && RowSet(rows[GroupOf(g, goal)], BitOf(g, goal), hi)
    requires hi == g.perGroup || (BitOf(g, goal) <= hi < g.perGroup && ret == Number(g, GroupOf(g, goal), hi))
    ensures forall b: nat :: SkippedAt(g, used, goal, ret, b)
  {
    forall b: nat ensures SkippedAt(g, used, goal, ret, b) { Skipped(g, rows, used, goal, hi, ret, b); }
  }

  /** A run of clear bits: its blocks are not in use, so they are neither metadata nor past
      the end of the file system. */
  lemma FreshRun(g: Geo, rows: seq<Row>, used: set<nat>, x: nat, r: nat, num: nat)
    requires GeoOk(g) && |rows| == |g.descs| && Tied(g, rows, used) && Reserved(g, used)
    requires x < |rows| && |rows[x]| == g.perGroup && num > 0 && r + num <= g.perGroup && RowClear(rows[x], r, r + num)
    ensures var b := Number(g, x, r);
            Span(b, b + num) !! used && !HitsSystem(g, x, b, num) && b + num <= g.blocks
  {
    var b := Number(g, x, r);
    forall c: nat | b <= c < b + num ensures c !in used {
      NumberOf(g, x, r + (c - b), c);
      assert TiedAt(g, rows, used, c);
    }
    if HitsSystem(g, x, b, num) { HitIsMeta(g, x, b, num); }
    var k: nat := r + num - 1;
    assert Number(g, x, k) == b + num - 1;
    assert Padding(g, x, k) ==> Number(g, x, k) in used;
  }

  /** The groups tried after bgi turns, starting behind g0 and going round. */
  predicate Passed(g0: nat, bgi: nat, n: nat, x: nat) {
    g0 < x <= g0 + bgi || x + n <= g0 + bgi
  }

  lemma {:induction false} StaysUsed(g: Geo, ops: seq<Op>, rs: seq<Reply>, trail: seq<Vol>, a: nat, b: nat, x: nat)
    requires g.perGroup > 0 && History(g, ops, rs, trail) && a <= b <= |rs| && x in trail[a].used
    requires forall k :: a <= k < b ==> !GivesUp(trail[k], ops[k], x)
    ensures x in trail[b].used
    decreases b
  {
    if a < b {
      StaysUsed(g, ops, rs, trail, a, b - 1, x);
      assert StepAt(g, ops, rs, trail, b - 1);
      UsedStep(g, trail[b - 1], ops[b - 1], rs[b - 1], trail[b], x);
    }
  }

  /** No block is handed out twice unless it was given up between: by a free that names it or by
      the truncation of a file whose pointers lead to it. */
  lemma NotTwice(g: Geo, ops: seq<Op>, rs: seq<Reply>, trail: seq<Vol>, a: nat, b: nat, x: nat) returns (k: nat)
    requires g.perGroup > 0 && History(g, ops, rs, trail) && a < b < |rs| && rs[a].Got? && rs[b].Got?
    requires rs[a].ret <= x < rs[a].ret + rs[a].num && rs[b].ret <= x < rs[b].ret + rs[b].num
    ensures a < k < b && GivesUp(trail[k], ops[k], x)
  {
    assert StepAt(g, ops, rs, trail, a) && StepAt(g, ops, rs, trail, b);
    assert x in Span(rs[a].ret, rs[a].ret + rs[a].num) && x in Span(rs[b].ret, rs[b].ret + rs[b].num);
    if forall m :: a < m < b ==> !GivesUp(trail[m], ops[m], x) {
      StaysUsed(g, ops, rs, trail, a + 1, b, x);
    }
    k :| a < k < b && GivesUp(trail[k], ops[k], x);
  }

  class Volume {
    const geo: Geo
    var rows: seq<Row>
    var free: seq<nat>
    var ptrs: Pointers
    var data: seq<nat>

    ghost var used: set<nat>

    ghost predicate Valid()
      reads this`rows, this`free, this`used
    {
      Counted(geo, rows, free) && Tied(geo, rows, used)
    }

    /** A mounted file system; data holds the pointers of one inode. */
    constructor (g: Geo, bitmaps: seq<Row>, counts: seq<nat>, blocks: Pointers, pointers: seq<nat>)
      requires Counted(g, bitmaps, counts)
      ensures Valid() && geo == g && rows == bitmaps && free == counts && ptrs == blocks && data == pointers
    {
      geo, rows, free, ptrs, data := g, bitmaps, counts, blocks, pointers;
      ghost var end := Number(g, |bitmaps|, 0);
      used := set b: nat | b < end && InUse(g, bitmaps, b);
      new;
      forall b: nat ensures TiedAt(geo, rows, used, b) {
        if InUse(g, bitmaps, b) { MulLess(GroupOf(g, b), |bitmaps|, g.perGroup); }
      }
    }

    /** ext2_free_blocks inside one group; a clear bit is the panic. */
    method FreeInGroup(x: nat, bit: nat, count: nat) returns (ok: bool)
      requires Counted(geo, rows, free) && x < |rows| && bit + count <= geo.perGroup
      modifies this`rows, this`free
      ensures ok <==> AllSet(old(rows), x, bit, bit + count)
      ensures ok ==> Counted(geo, rows, free) && |rows| == |old(rows)| && rows == old(rows)[x := rows[x]]
      ensures ok ==> Painted(old(rows)[x], rows[x], bit, bit + count, false)
    {
      assert RowOk(geo, rows, x) && CountOk(rows, free, x);
      ghost var row0 := rows[x];
      var row := rows[x];
      var i := 0;
      while i < count
        invariant i <= count
        invariant Painted(row0, row, bit, bit + i, false)
        invariant forall k :: bit <= k < bit + i ==> row0[k]
        invariant Clear(row) == Clear(row0) + i
        modifies {}
      {
        if !row[bit + i] {
          return false;
        }
        ClearUpdate(row, bit + i, false);
        row := row[bit + i := false];
        i := i + 1;
      }
      PaintedCounts(geo, rows, free, row, x, free[x] + count);
      rows := rows[x := row];
      free := free[x := free[x] + count];
      return true;
    }

    /** The blocks of one group: the test for metadata, then the bits. */
    method FreeChunk(block: nat, count: nat) returns (ok: bool)
      requires Valid() && count > 0 && geo.first <= block && GroupOf(geo, block) < |rows| && BitOf(geo, block) + count <= geo.perGroup
      modifies this`rows, this`free, this`used
      ensures ok ==> Valid() && used == old(used) - Span(block, block + count)
      ensures ok <==> !HitsSystem(geo, GroupOf(geo, block), block, count) && Span(block, block + count) <= old(used)
    {
      var x, bit := GroupOf(geo, block), BitOf(geo, block);
      assert RowOk(geo, rows, x);
      ghost var r0 := rows;
      if HitsSystem(geo, x, block, count) { return false; }
      ok := FreeInGroup(x, bit, count);
      if ok {
        NumberOf(geo, x, bit, block);
        PaintedTied(geo, r0, used, rows[x], x, bit, bit + count, false);
        forall b: nat | block <= b < block + count ensures b in used { RunBits(geo, r0, used, block, b - block); }
        used := used - Span(block, block + count);
      } else {
        ghost var k :| bit <= k < bit + count && !r0[x][k];
        RunBits(geo, r0, used, block, k - bit);
        assert block + (k - bit) in Span(block, block + count);
      }
    }

    /** One turn of ext2_free_blocks: as many of the blocks as lie in the group of the first. */
    method FreeTurn(block: nat, count: nat) returns (ok: bool, here: nat, ghost hit: bool)
      requires Valid() && count > 0 && geo.first <= block && block + count <= geo.blocks
      modifies this`rows, this`free, this`used
      ensures 0 < here <= count
      ensures ok ==> Valid() && used == old(used) - Span(block, block + here)
      ensures ok <==> !hit && Span(block, block + here) <= old(used)
      ensures NoHit(geo, block, count) <==> !hit && NoHit(geo, block + here, count - here)
    {
      here := count;
      GroupBound(geo, block);
      var bit := BitOf(geo, block);
      if bit + count > geo.perGroup {
        var overflow := bit + count - geo.perGroup;
        here := count - overflow;
      }
      assert here == InGroup(geo, block, count);
      hit := HitsSystem(geo, GroupOf(geo, block), block, here);
      ok := FreeChunk(block, here);
    }

    /** ext2_free_blocks, group by group; false is one of its panics. */
    method FreeBlocks(block0: nat, count0: nat) returns (ok: bool)
      requires Valid() && count0 > 0
      modifies this`rows, this`free, this`used
      ensures ok <==> MayFree(geo, old(used), block0, count0)
      ensures ok ==> Valid() && used == old(used) - Span(block0, block0 + count0)
    {
      if block0 < geo.first || block0 + count0 > geo.blocks { return false; }
      var block: nat, count: nat, more: bool := block0, count0, true;
      while more
        invariant block0 <= block && block + count == block0 + count0 && (more <==> count > 0)
        invariant Valid() && used == old(used) - Span(block0, block) && Span(block0, block) <= old(used)
        invariant NoHit(geo, block0, count0) <==> NoHit(geo, block, count)
        decreases count
      {
        var here;
        ghost var u, hit := used, false;
        ok, here, hit := FreeTurn(block, count);
        if !ok {
          if !hit {
            ghost var b: nat :| b in Span(block, block + here) && b !in u;
            assert b in Span(block0, block0 + count0);
          }
          return;
        }
        block, count := block + here, count - here;
        more := count > 0;
      }
      return true;
    }

    /** Freeing a run that follows the part of a list already freed. */
    method FreeRun(block: nat, count: nat, ghost u: set<nat>, ghost done: seq<nat>) returns (ok: bool)
      requires Valid() && count > 0 && used == u - Elems(done)
      modifies this`rows, this`free, this`used
      ensures ok ==> Valid() && used == u - Elems(done + Numbers(block, count))
      ensures Freeable(geo, u, done + Numbers(block, count)) ==> ok
    {
      NumbersElems(block, count);
      ElemsConcat(done, Numbers(block, count));
      if Freeable(geo, u, done + Numbers(block, count)) {
        FreeableRest(geo, u, done, Numbers(block, count));
        FreeableRun(geo, used, block, count);
        CanFreeMay(geo, used, block, count);
      }
      ok := FreeBlocks(block, count);
    }

    /** ext2_free_data: the blocks named in an array of pointers, runs of consecutive
        numbers in one call; the array comes back zeroed. */
    method FreeData(words: seq<nat>) returns (ok: bool, out: seq<nat>)
      requires Valid()
      modifies this`rows, this`free, this`used
      ensures ok ==> Valid() && used == old(used) - Elems(Blocks(ptrs, words, 0)) && out == Zeros(|words|)
      ensures Freeable(geo, old(used), Blocks(ptrs, words, 0)) ==> ok
    {
      var block: nat, count: nat := 0, 0;
      out := words;
      ghost var done: seq<nat>, u, list := [], used, Blocks(ptrs, words, 0);
      var p := 0;
      while p < |words|
        invariant p <= |words| && |out| == |words| && out[p..] == words[p..] && out[..p] == Zeros(p)
        invariant Valid() && used == u - Elems(done)
        invariant Blocks(ptrs, words[..p], 0) == done + Numbers(block, count)
      {
        var nr := out[p];
        assert words[..p + 1][..p] == words[..p] && nr == words[p];
        if nr != 0 {
          out := out[p := 0];
          if count == 0 {
            block, count := nr, 1;
          } else if block + count == nr {
            count := count + 1;
          } else {
            BlocksPrefix(ptrs, words, p, 0);
            if Freeable(geo, u, list) { FreeablePrefix(geo, u, done + Numbers(block, count), list); }
            ok := FreeRun(block, count, u, done);
            if !ok { return; }
            done := done + Numbers(block, count);
            block, count := nr, 1;
          }
        }
        p := p + 1;
      }
      assert words[..p] == words && out[..p] == out;
      ok := true;
      if count > 0 {
        ok := FreeRun(block, count, u, done);
      }
    }

    /** ext2_free_branches: the trees under an array of pointers. */
    method FreeBranches(words: seq<nat>, depth: nat) returns (ok: bool, out: seq<nat>)
      requires Valid()
      modifies this`rows, this`free, this`used, this`ptrs
      ensures ok ==> Valid() && out == Zeros(|words|)
      ensures var list := Blocks(old(ptrs), words, depth);
              Freeable(geo, old(used), list) ==> ok && used == old(used) - Elems(list) && SameElsewhere(old(ptrs), ptrs, list)
      decreases depth, 0
    {
      if depth == 0 {
        ok, out := FreeData(words);
        return;
      }
      ghost var u, p0 := used, ptrs;
      ghost var can := Freeable(geo, u, Blocks(ptrs, words, depth));
      out := words;
      var p := 0;
      while p < |words|
        invariant p <= |words| && |out| == |words| && out[p..] == words[p..] && out[..p] == Zeros(p)
        invariant Valid() && (can ==> Branched(u, p0, words[..p], depth))
      {
        var nr := out[p];
        assert words[..p + 1][..p] == words[..p] && nr == words[p];
        out := out[p := 0];
        ok := FreeBranch(nr, depth, u, p0, words, p);
        if !ok { return; }
        p := p + 1;
      }
      assert words[..p] == words && out[..p] == out;
      ok := true;
    }

    /** The trees under these pointers are gone. */
    ghost predicate Branched(u: set<nat>, p0: Pointers, words: seq<nat>, depth: nat)
      reads this`used, this`ptrs
    {
      var done := Blocks(p0, words, depth);
      used == u - Elems(done) && SameElsewhere(p0, ptrs, done)
    }

    /** One turn of the loop of ext2_free_branches, at pointer p. */
    method FreeBranch(nr: nat, depth: nat, ghost u: set<nat>, ghost p0: Pointers, ghost words: seq<nat>, ghost p: nat) returns (ok: bool)
      requires Valid() && depth > 0 && p < |words| && nr == words[p]
      modifies this`rows, this`free, this`used, this`ptrs
      ensures ok ==> Valid()
      ensures Freeable(geo, u, Blocks(p0, words, depth)) && old(Branched(u, p0, words[..p], depth)) ==>
                ok && Branched(u, p0, words[..p + 1], depth)
      decreases depth - 1, 2
    {
      assert words[..p + 1][..p] == words[..p];
      ghost var done, next := Blocks(p0, words[..p], depth), Tree(p0, nr, depth);
      ghost var can := Freeable(geo, u, Blocks(p0, words, depth)) && Branched(u, p0, words[..p], depth);
      assert Blocks(p0, words[..p + 1], depth) == done + next;
      ok := true;
      if nr != 0 {
        ghost var q := ptrs;
        if can {
          BlocksPrefix(p0, words, p + 1, depth);
          FreeablePrefix(geo, u, done + next, Blocks(p0, words, depth));
          FreeableRest(geo, u, done, next);
          DisjointAgree(p0, q, done, next);
          TreeFrame(p0, q, nr, depth);
        }
        ok := FreeTree(nr, depth);
        if ok && can {
          ElemsConcat(done, next);
          ElsewhereConcat(p0, q, ptrs, done, next);
        }
      }
    }

    /** One turn of ext2_free_branches: the tree under a pointer block, then the block. */
    method FreeTree(nr: nat, depth: nat) returns (ok: bool)
      requires Valid() && nr != 0 && depth > 0
      modifies this`rows, this`free, this`used, this`ptrs
      ensures ok ==> Valid()
      ensures var list := Tree(old(ptrs), nr, depth);
              Freeable(geo, old(used), list) ==> ok && used == old(used) - Elems(list) && SameElsewhere(old(ptrs), ptrs, list)
      decreases depth - 1, 1
    {
      ghost var u, p0 := used, ptrs;
      ghost var sub := Blocks(ptrs, Words(ptrs, nr), depth - 1);
      ghost var can := Freeable(geo, u, sub + [nr]);
      if can { FreeableRest(geo, u, sub, [nr]); }
      var out;
      ok, out := FreeBranches(Words(ptrs, nr), depth - 1);
      if !ok { return; }
      ghost var q := ptrs;
      ptrs := ptrs[nr := out];
      if can {
        assert CanFree(geo, used, [nr][0]);
        ElsewhereConcat(p0, q, ptrs, sub, [nr]);
        ElemsConcat(sub, [nr]);
      }
      ok := FreeOne(nr);
    }

    /** ext2_free_blocks of a single block. */
    method FreeOne(nr: nat) returns (ok: bool)
      requires Valid()
      modifies this`rows, this`free, this`used
      ensures ok ==> Valid() && used == old(used) - {nr}
      ensures CanFree(geo, old(used), nr) ==> ok
    {
      if CanFree(geo, used, nr) { CanFreeMay(geo, used, nr, 1); }
      assert Span(nr, nr + 1) == {nr};
      ok := FreeBlocks(nr, 1);
    }

    /** One of the three trees of ext2_itrunc. */
    method FreeRoot(k: nat, depth: nat, ghost u: set<nat>, ghost p0: Pointers, ghost done: seq<nat>) returns (ok: bool)
      requires Valid() && k < |data| && depth > 0
      modifies this
      ensures ok ==> Valid() && data == old(data)[k := 0]
      ensures var list := done + Tree(p0, old(data)[k], depth);
              Freeable(geo, u, list) && old(used) == u - Elems(done) && SameElsewhere(p0, old(ptrs), done) ==>
                ok && used == u - Elems(list) && SameElsewhere(p0, ptrs, list)
    {
      var nr := data[k];
      ghost var q, next := ptrs, Tree(p0, nr, depth);
      ghost var can := Freeable(geo, u, done + next) && used == u - Elems(done) && SameElsewhere(p0, ptrs, done);
      ok := true;
      if can {
        FreeableRest(geo, u, done, next);
        DisjointAgree(p0, q, done, next);
        TreeFrame(p0, q, nr, depth);
        ElemsConcat(done, next);
      }
      if nr != 0 {
        data := data[k := 0];
        assert Blocks(q, [nr], depth) == Tree(q, nr, depth) by { assert [nr][..0] == []; }
        var out;
        ok, out := FreeBranches([nr], depth);
        if ok && can { ElsewhereConcat(p0, q, ptrs, done, next); }
      }
    }

    /** ext2_itrunc */
    method Itrunc() returns (ok: bool)
      requires Valid() && |data| == 15
      modifies this
      ensures ok ==> Valid() && data == Zeros(15)
      ensures var list := FileBlocks(old(ptrs), old(data));
              Freeable(geo, old(used), list) ==> ok && used == old(used) - Elems(list) && SameElsewhere(old(ptrs), ptrs, list)
    {
      ghost var u, p0, d0 := used, ptrs, data;
      ghost var a := Blocks(ptrs, data[..12], 0);
      ghost var b := a + Tree(ptrs, data[12], 1);
      ghost var c := b + Tree(ptrs, data[13], 2);
      ghost var e := c + Tree(ptrs, data[14], 3);
      ghost var can := Freeable(geo, u, e);
      if can {
        FreeablePrefix(geo, u, c, e);
        FreeablePrefix(geo, u, b, e);
        FreeablePrefix(geo, u, a, e);
      }
      var out;
      ok, out := FreeData(data[..12]);
      if !ok { return; }
      data := out + data[12..];
      ok := FreeRoot(12, 1, u, p0, a);
      if !ok { return; }
      ok := FreeRoot(13, 2, u, p0, b);
      if !ok { return; }
      ok := FreeRoot(14, 3, u, p0, c);
    }

    /** Group x has no clear bit. */
    ghost predicate Full(x: nat)
      reads this`rows
    {
      x < |rows| ==> RowSet(rows[x], 0, |rows[x]|)
    }

    /** num blocks from bit r of group x were added to the set u of blocks in use. */
    ghost predicate Allotted(x: nat, r: nat, num: nat, u: set<nat>)
      reads this`rows, this`free, this`used
    {
      && Valid() && Reserved(geo, used) && 0 < num && r + num <= geo.perGroup
      && var b := Number(geo, x, r);
      b + num <= geo.blocks && Span(b, b + num) !! u && used == u + Span(b, b + num)
    }

    /** Trying one group with a free count above zero; on success the bits are marked and
        the count lowered. */
    method TryGroup(x: nat, past: nat -> bool, goal: int, count: nat) returns (r: int, num: nat)
      requires Valid() && Reserved(geo, used) && x < |rows| && goal < geo.perGroup
      modifies this`rows, this`free, this`used
      ensures r < 0 ==> rows == old(rows) && free == old(free) && used == old(used) && num == 0 && (goal <= 0 ==> Full(x))
      ensures goal >= 0 ==> RowSet(old(rows)[x], goal, if r < 0 then |old(rows)[x]| else r) && (r >= 0 ==> goal <= r)
      ensures r >= 0 ==> Allotted(x, r, num, old(used)) && (num <= count || num == 1) && !old(Full(x))
    {
      assert RowOk(geo, rows, x) && CountOk(rows, free, x);
      var to;
      r, num, to := TryToAllocate(rows[x], past, goal, count);
      if r < 0 { return; }
      var b := Number(geo, x, r);
      FreshRun(geo, rows, used, x, r, num);
      if HitsSystem(geo, x, b, num) {
        assert false;
      }
      if b + num - 1 >= geo.blocks {
        assert false;
      }
      PaintedCounts(geo, rows, free, to, x, free[x] - num);
      PaintedTied(geo, rows, used, to, x, r, r + num, true);
      rows, free := rows[x := to], free[x := free[x] - num];
      used := used + Span(b, b + num);
    }

    /** The loop of ext2_new_blocks over the groups behind g0 and round to g0 itself. */
    method OtherGroups(g0: nat, past: (nat, nat) -> bool, count: nat) returns (r: int, group: nat, num: nat)
      requires Valid() && Reserved(geo, used) && g0 < |rows|
      modifies this`rows, this`free, this`used
      ensures r < 0 ==> rows == old(rows) && free == old(free) && used == old(used) && forall x: nat :: Full(x)
      ensures r >= 0 ==> Allotted(group, r, num, old(used)) && (num <= count || num == 1) && !old(Full(group))
    {
      group, num := g0, count;
      var bgi := 0;
      while bgi < |rows|
        invariant bgi <= |rows| && group < |rows| && (num <= count || num == 1)
        invariant group == if g0 + bgi < |rows| then g0 + bgi else g0 + bgi - |rows|
        invariant rows == old(rows) && free == old(free) && used == old(used)
        invariant forall x: nat :: Passed(g0, bgi, |rows|, x) ==> Full(x)
      {
        group := if group + 1 >= |rows| then 0 else group + 1;
        assert CountOk(rows, free, group);
        if free[group] > 0 {
          r, num := TryGroup(group, (i: nat) => past(group, i), -1, num);
          if r >= 0 { return; }
        } else {
          ClearZero(rows[group]);
        }
        assert Full(group);
        bgi := bgi + 1;
      }
      forall x: nat ensures Full(x) { assert x < |rows| ==> Passed(g0, bgi, |rows|, x); }
      r := -1;
    }

    /** The group of the goal, from its bit on. */
    method TryGoal(x: nat, past: (nat, nat) -> bool, bit: nat, count: nat) returns (r: int, num: nat)
      requires Valid() && Reserved(geo, used) && x < |rows| && bit < geo.perGroup
      modifies this`rows, this`free, this`used
      ensures r < 0 ==> rows == old(rows) && free == old(free) && used == old(used) && (num <= count || num == 1)
      ensures r >= 0 ==> Allotted(x, r, num, old(used)) && (num <= count || num == 1) && !old(Full(x)) && bit <= r
      ensures RowSet(old(rows)[x], bit, if r < 0 then geo.perGroup else r)
    {
      assert RowOk(geo, rows, x) && CountOk(rows, free, x);
      if free[x] > 0 {
        r, num := TryGroup(x, (i: nat) => past(x, i), bit, count);
      } else {
        ClearZero(rows[x]);
        r, num := -1, count;
      }
    }

    /** ext2_new_blocks: the group of the goal, then every group in turn.  ret is 0 when
        no block is free; num blocks from ret are marked.  past(x, i) is bit i of memory at and
        behind the bitmap of group x. */
    method NewBlocks(goal0: nat, past: (nat, nat) -> bool, count: nat) returns (ok: bool, ret: nat, num: nat)
      requires Valid() && Reserved(geo, used)
      modifies this`rows, this`free, this`used
      ensures !ok <==> forall x: nat :: old(Full(x))
      ensures !ok ==> rows == old(rows) && free == old(free) && used == old(used)
      ensures ok ==> Valid() && Reserved(geo, used) && 0 < num && (num <= count || num == 1)
      ensures ok ==> Span(ret, ret + num) !! old(used) && used == old(used) + Span(ret, ret + num)
      ensures ok ==> geo.first <= ret && ret + num <= geo.blocks && GroupOf(geo, ret) == GroupOf(geo, ret + num - 1)
      ensures ok ==> forall b: nat :: SkippedAt(geo, old(used), Clamp(geo, goal0), ret, b)
    {
      var goal := Clamp(geo, goal0);
      var group := GroupOf(geo, goal);
      GroupBound(geo, goal);
      ghost var g0, rows0 := group, rows;
      var r;
      r, num := TryGoal(group, past, BitOf(geo, goal), count);
      ghost var hi := if r < 0 then geo.perGroup else r;
      if r < 0 {
        r, group, num := OtherGroups(group, past, num);
        if r < 0 {
          forall x: nat ensures old(Full(x)) { assert Full(x); }
          return false, 0, num;
        }
      }
      ret := Number(geo, group, r);
      NumberOf(geo, group, r, ret);
      NumberOf(geo, group, r + num - 1, ret + num - 1);
      assert RowOk(geo, rows0, g0);
      AllSkipped(geo, rows0, old(used), goal, hi, ret);
      ok := true;
    }

    /** ext2_itrunc of an inode with the given pointers. */
    method TruncateStep(words: seq<nat>) returns (r: Reply)
      requires Valid() && Reserved(geo, used) && |words| == 15 && Freeable(geo, used, FileBlocks(ptrs, words))
      modifies this
      ensures Valid() && Reserved(geo, used) && r == Freed
      ensures used == old(used) - Elems(FileBlocks(old(ptrs), words)) && SameElsewhere(old(ptrs), ptrs, FileBlocks(old(ptrs), words))
    {
      ReservedKept(geo, used, FileBlocks(ptrs, words));
      data := words;
      var ok := Itrunc();
      r := Freed;
    }

    method AllocStep(goal: nat, past: (nat, nat) -> bool, count: nat) returns (r: Reply)
      requires Valid() && Reserved(geo, used)
      modifies this`rows, this`free, this`used
      ensures Valid() && Reserved(geo, used)
      ensures if r.Got? then GotOk(geo, old(used), goal, count, r) && used == old(used) + Span(r.ret, r.ret + r.num)
              else r == NoSpace && Span(geo.first, geo.blocks) <= old(used) && used == old(used)
    {
      AllFull(geo, rows, used);
      ghost var r0 := rows;
      var found, ret, num := NewBlocks(goal, past, count);
      if !found {
        forall x: nat | x < |r0| ensures RowSet(r0[x], 0, |r0[x]|) { assert old(Full(x)); }
      }
      r := if found then Got(ret, num) else NoSpace;
    }

    /** One call. */
    method Step(op: Op) returns (r: Reply)
      requires Valid() && Reserved(geo, used) && OpOk(op) && !Unsound(geo, Vol(used, ptrs), op)
      modifies this
      ensures ReplyOk(geo, old(Vol(used, ptrs)), op, r)
      ensures r != Panic ==> Valid() && Reserved(geo, used) && Leaves(old(Vol(used, ptrs)), op, r, Vol(used, ptrs))
    {
      match op {
        case Alloc(goal, past, count) => r := AllocStep(goal, past, count);
        case Free(block, count) =>
          ghost var u := used;
          var ok := FreeBlocks(block, count);
          r := if ok then Freed else Panic;
          if ok { FreedReserved(geo, u, op); }
        case Point(b, words) =>
          ptrs := ptrs[b := words];
          r := Stored;
        case Truncate(words) => r := TruncateStep(words);
      }
    }

    /** Any run of allocations, frees, pointer stores and truncations, up to a panic or an
        unsound free: the blocks in use are those of the replies, and every free count equals
        the clear bits. */
    method Run(ops: seq<Op>) returns (rs: seq<Reply>, ghost trail: seq<Vol>)
      requires Valid() && Reserved(geo, used) && forall k :: 0 <= k < |ops| ==> OpOk(ops[k])
      modifies this
      ensures History(geo, ops, rs, trail) && trail[0] == old(Vol(used, ptrs))
      ensures |rs| == |ops| ==> Valid() && Reserved(geo, used) && trail[|rs|] == Vol(used, ptrs)
      ensures |rs| < |ops| ==> Unsound(geo, trail[|rs|], ops[|rs|]) || ReplyOk(geo, trail[|rs|], ops[|rs|], Panic)
    {
      rs, trail := [], [Vol(used, ptrs)];
      while |rs| < |ops|
        invariant |rs| <= |ops| && Valid() && Reserved(geo, used)
        invariant History(geo, ops, rs, trail) && trail[0] == old(Vol(used, ptrs)) && trail[|rs|] == Vol(used, ptrs)
      {
        var stop := Refuses(ops[|rs|]);
        if stop { return; }
        ghost var v := Vol(used, ptrs);
        var r := Step(ops[|rs|]);
        if r == Panic { return; }
        HistoryOn(geo, ops, rs, trail, v, r, Vol(used, ptrs));
        rs, trail := rs + [r], trail + [Vol(used, ptrs)];
      }
    }

    /** Whether the run stops before an operation. */
    method Refuses(op: Op) returns (stop: bool)
      requires Valid() && OpOk(op)
      ensures stop <==> Unsound(geo, Vol(used, ptrs), op)
    {
      match op
      case Alloc(_, _, _) => stop := false;
      case Free(block, count) => stop := exists b :: block <= b < block + count && Meta(geo, b);
      case Point(_, _) => stop := false;
      case Truncate(words) =>
        var list := FileBlocks(ptrs, words);
        forall i | 0 <= i < |list| ensures list[i] in used <==> InUse(geo, rows, list[i]) {
          assert TiedAt(geo, rows, used, list[i]);
        }
        stop := !(NoDup(list) && forall i :: 0 <= i < |list| ==>
                    geo.first <= list[i] < geo.blocks && InUse(geo, rows, list[i]) && !Meta(geo, list[i]));
    }
  }

  /** Two blocks asked for, one marked: the other clear bit does not follow the first. */
  method ShortAllocation() returns (r: int, num: nat)
    ensures r == 1 && num == 1
  {
    var row := [true, false, true, false, true, true, true, true];
    var to;
    r, num, to := TryToAllocate(row, _ => true, 1, 2);
    assert !row[1] && row[2];
  }

  /** With bit 100 alone clear find_next_zero_bit returns 68, a set bit. */
  method HintAtSetBit(past: nat -> bool) returns (row: Row, r: nat)
    ensures |row| == 8192 && (forall i :: 0 <= i < 8192 ==> row[i] == (i != 100)) && r == 68
  {
    row := seq(8192, i => i != 100);
    r := FindZeroBit(row, past, 8192, 0);
    assert !row[100] && !MemBit(row, past, 100);
  }
}
