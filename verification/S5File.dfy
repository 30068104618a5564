/**
 The on-disk image of the s5 file system: the block bitmap, the blocks, and the
 pointers and size of every inode.  Twelve pointers are direct; the thirteenth names
 a block of 256 further pointers, four bytes each, little-endian.
 */
module S5Image {

  const BSIZE: nat := 1024
  const NDIRECT: nat := 12
  const NINDIRECT: nat := 256
  const MAXFILE: nat := 268

  type Block = seq<nat>

  datatype Image = Image(bitmap: seq<bool>, blocks: seq<Block>, addrs: seq<seq<nat>>, sizes: seq<nat>, start: nat)

  /** A place that holds a block pointer. */
  datatype Slot = Direct(i: nat, k: nat) | Indirect(i: nat) | Entry(i: nat, k: nat)

  function Word(b: Block, k: nat): nat
    requires |b| == 1024 && k < 256
  {
    b[4 * k] + 0x100 * b[4 * k + 1] + 0x1_0000 * b[4 * k + 2] + 0x100_0000 * b[4 * k + 3]
  }

  function SetWord(b: Block, k: nat, v: nat): (c: Block)
    requires |b| == 1024 && k < 256
    ensures |c| == 1024
  {
    b[4 * k := v % 0x100][4 * k + 1 := v / 0x100 % 0x100][4 * k + 2 := v / 0x1_0000 % 0x100][4 * k + 3 := v / 0x100_0000]
  }

  lemma SetWordReads(b: Block, k: nat, v: nat, j: nat)
    requires |b| == 1024 && k < 256 && j < 256
    ensures Word(SetWord(b, k, v), j) == if j == k then v else Word(b, j)
  {
    FourBytes(v);
  }

  lemma FourBytes(v: nat)
    ensures v == v % 0x100 + 0x100 * (v / 0x100 % 0x100) + 0x1_0000 * (v / 0x1_0000 % 0x100) + 0x100_0000 * (v / 0x100_0000)
  {
    Shift(v);
    Shift(v / 0x100);
    assert v / 0x100 / 0x1_0000 == v / 0x100_0000;
  }

  lemma Shift(v: nat)
    ensures v / 0x100 / 0x100 == v / 0x1_0000 && v == v % 0x100 + 0x100 * (v / 0x100)
  {
  }

  function Zeros(): (b: Block)
    ensures |b| == 1024
    ensures forall k :: 0 <= k < 1024 ==> b[k] == 0
  {
    seq(1024, _ => 0)
  }

  ghost predicate BlockOk(s: Image, b: nat) {
    b < |s.blocks| ==> |s.blocks[b]| == 1024
  }

  ghost predicate InodeOk(s: Image, i: nat) {
    i < |s.addrs| && i < |s.sizes| ==> |s.addrs[i]| == 13 && s.sizes[i] <= MAXFILE * BSIZE
  }

  ghost predicate Shape(s: Image) {
    && |s.blocks| == |s.bitmap| && |s.addrs| == |s.sizes| && 0 < s.start <= |s.bitmap|
    && (forall b: nat :: BlockOk(s, b))
    && (forall i: nat :: InodeOk(s, i))
  }

  predicate Real(s: Image, sl: Slot) {
    sl.i < |s.addrs| && |s.addrs[sl.i]| == 13 && (sl.Direct? ==> sl.k < NDIRECT) && (sl.Entry? ==> sl.k < NINDIRECT)
  }

  /** The block number stored in a slot, 0 when there is none. */
  function AddrOf(s: Image, sl: Slot): nat {
    if !Real(s, sl) then 0
    else
      match sl
      case Direct(i, k) => s.addrs[i][k]
      case Indirect(i) => s.addrs[i][12]
      case Entry(i, k) =>
        var a := s.addrs[i][12];
        if a == 0 || a >= |s.blocks| || |s.blocks[a]| != 1024 then 0 else Word(s.blocks[a], k)
  }

  function SlotFor(i: nat, bn: nat): Slot {
    if bn < NDIRECT then Direct(i, bn) else Entry(i, bn - NDIRECT)
  }

  /** Byte k of inode i; 0 where the file has no block. */
  function ByteAt(s: Image, i: nat, k: nat): nat {
    var a := AddrOf(s, SlotFor(i, k / 1024));
    if a == 0 || a >= |s.blocks| || |s.blocks[a]| != 1024 then 0 else s.blocks[a][k % 1024]
  }

  /** Where byte k of inode i lies: in one of the twelve direct blocks, or in the block that the
      little-endian word k / 1024 - 12 of the indirect block names. */
  lemma ByteLayout(s: Image, i: nat, k: nat, a: nat)
    requires i < |s.addrs| && |s.addrs[i]| == 13 && 0 < a < |s.blocks| && |s.blocks[a]| == 1024
    ensures k < 12 * 1024 && s.addrs[i][k / 1024] == a ==> ByteAt(s, i, k) == s.blocks[a][k % 1024]
    ensures 12 * 1024 <= k < 268 * 1024 && 0 < s.addrs[i][12] < |s.blocks| && |s.blocks[s.addrs[i][12]]| == 1024 ==>
              var p, j := s.blocks[s.addrs[i][12]], 4 * (k / 1024 - 12);
              p[j] + 256 * p[j + 1] + 65536 * p[j + 2] + 16777216 * p[j + 3] == a ==> ByteAt(s, i, k) == s.blocks[a][k % 1024]
  {
  }

  function Content(s: Image, i: nat): (c: seq<nat>)
    requires i < |s.sizes|
    ensures |c| == s.sizes[i]
  {
    seq(s.sizes[i], k requires 0 <= k => ByteAt(s, i, k))
  }

  // ------------------------------------------------- ownership

  /** The block a slot points to is owned by that slot. */
  ghost predicate Linked(s: Image, o: map<nat, Slot>, sl: Slot) {
    AddrOf(s, sl) != 0 ==> AddrOf(s, sl) in o && o[AddrOf(s, sl)] == sl
  }

  /** The bitmap marks the blocks before start and the owned ones, and an owned block is
      what its owner points to. */
  ghost predicate Marked(s: Image, o: map<nat, Slot>, b: nat) {
    && (b < |s.bitmap| ==> (s.bitmap[b] <==> b < s.start || b in o))
    && (b in o ==> s.start <= b < |s.bitmap| && AddrOf(s, o[b]) == b)
  }

  ghost predicate Tree(s: Image, o: map<nat, Slot>) {
    Shape(s) && (forall sl: Slot :: Linked(s, o, sl)) && (forall b: nat :: Marked(s, o, b))
  }

  ghost predicate HasBlock(s: Image, i: nat, bn: nat) {
    i < |s.sizes| && bn * 1024 < s.sizes[i] ==> AddrOf(s, SlotFor(i, bn)) != 0
  }

  /** No file has a hole. */
  ghost predicate Filled(s: Image) {
    forall i: nat, bn: nat :: HasBlock(s, i, bn)
  }

  ghost predicate SameByte(s: Image, t: Image, i: nat, k: nat) {
    ByteAt(t, i, k) == ByteAt(s, i, k)
  }

  /** The bitmap marks exactly the reserved blocks and those some slot points to. */
  lemma BitmapExact(s: Image, o: map<nat, Slot>, b: nat)
    requires Tree(s, o) && b < |s.bitmap|
    ensures s.bitmap[b] <==> b < s.start || exists sl: Slot :: AddrOf(s, sl) == b
  {
    assert Marked(s, o, b);
    forall sl: Slot | AddrOf(s, sl) == b && b != 0 ensures b in o { assert Linked(s, o, sl); }
  }

  /** No block is shared. */
  lemma NoSharing(s: Image, o: map<nat, Slot>, x: Slot, y: Slot)
    requires Tree(s, o) && AddrOf(s, x) != 0 && AddrOf(s, x) == AddrOf(s, y)
    ensures x == y
  {
    assert Linked(s, o, x) && Linked(s, o, y);
  }

  // ------------------------------------------------- allocating a block for a slot

  /** balloc: set the bit and zero the block. */
  function Claim(s: Image, b: nat): Image
    requires b < |s.bitmap| && b < |s.blocks|
  {
    s.(bitmap := s.bitmap[b := true], blocks := s.blocks[b := Zeros()])
  }

  function SetAddr(s: Image, i: nat, k: nat, v: nat): Image
    requires i < |s.addrs| && k < |s.addrs[i]|
  {
    var row: seq<nat> := s.addrs[i][k := v];
    s.(addrs := s.addrs[i := row])
  }

  /** Store a block number in a slot. */
  function SetPtr(s: Image, sl: Slot, v: nat): Image
    requires Real(s, sl)
    requires sl.Entry? ==> s.addrs[sl.i][12] < |s.blocks| && |s.blocks[s.addrs[sl.i][12]]| == 1024
  {
    match sl
    case Direct(i, k) => SetAddr(s, i, k, v)
    case Indirect(i) => SetAddr(s, i, 12, v)
    case Entry(i, k) =>
      var a := s.addrs[i][12];
      s.(blocks := s.blocks[a := SetWord(s.blocks[a], k, v)])
  }

  /** Slot sl is empty, there is a place to store its pointer, and block b is free. */
  ghost predicate CanAttach(s: Image, o: map<nat, Slot>, sl: Slot, b: nat) {
    && Tree(s, o) && Real(s, sl) && AddrOf(s, sl) == 0
    && (sl.Entry? ==> AddrOf(s, Indirect(sl.i)) != 0)
    && b < |s.bitmap| && !s.bitmap[b]
  }

  /** An indirect block is inside the image and is no other slot's block. */
  lemma PointerBlock(s: Image, o: map<nat, Slot>, i: nat)
    requires Tree(s, o) && AddrOf(s, Indirect(i)) != 0
    ensures var a := AddrOf(s, Indirect(i)); a < |s.blocks| && |s.blocks[a]| == 1024 && s.bitmap[a] && a in o && o[a] == Indirect(i)
  {
    var a := AddrOf(s, Indirect(i));
    assert Linked(s, o, Indirect(i)) && Marked(s, o, a) && BlockOk(s, a);
  }

  lemma DataBlock(s: Image, o: map<nat, Slot>, sl: Slot)
    requires Tree(s, o) && AddrOf(s, sl) != 0
    ensures var a := AddrOf(s, sl); s.start <= a < |s.blocks| && |s.blocks[a]| == 1024 && s.bitmap[a] && a in o && o[a] == sl
  {
    var a := AddrOf(s, sl);
    assert Linked(s, o, sl) && Marked(s, o, a) && BlockOk(s, a);
  }

  function Attach(s: Image, sl: Slot, b: nat): Image
    requires Real(s, sl) && b < |s.bitmap| && |s.blocks| == |s.bitmap|
    requires sl.Entry? ==> s.addrs[sl.i][12] < |s.blocks| && |s.blocks[s.addrs[sl.i][12]]| == 1024
  {
    SetPtr(Claim(s, b), sl, b)
  }

  lemma ClaimAddr(s: Image, o: map<nat, Slot>, b: nat, sl: Slot)
    requires Tree(s, o) && b < |s.bitmap| && !s.bitmap[b]
    ensures AddrOf(Claim(s, b), sl) == AddrOf(s, sl)
  {
    if sl.Entry? && AddrOf(s, Indirect(sl.i)) != 0 { PointerBlock(s, o, sl.i); }
  }

  lemma AttachAddr(s: Image, o: map<nat, Slot>, sl: Slot, b: nat, x: Slot)
    requires CanAttach(s, o, sl, b)
    ensures sl.Entry? ==> s.addrs[sl.i][12] < |s.blocks| && |s.blocks[s.addrs[sl.i][12]]| == 1024
    ensures AddrOf(Attach(s, sl, b), x) == if x == sl then b else AddrOf(s, x)
  {
    if sl.Entry? { PointerBlock(s, o, sl.i); }
    assert Marked(s, o, b);
    var c := Claim(s, b);
    ClaimAddr(s, o, b, x);
    if x.Entry? && Real(s, x) {
      if sl.Entry? {
        var a := s.addrs[sl.i][12];
        SetWordReads(c.blocks[a], sl.k, b, x.k);
        ClaimAddr(s, o, b, sl);
        if s.addrs[x.i][12] == a { PointerBlock(s, o, x.i); }
      } else if sl == Indirect(x.i) {
        assert Word(Zeros(), x.k) == 0;
      }
    }
  }

  lemma AttachShape(s: Image, o: map<nat, Slot>, sl: Slot, b: nat)
    requires CanAttach(s, o, sl, b)
    ensures sl.Entry? ==> s.addrs[sl.i][12] < |s.blocks| && |s.blocks[s.addrs[sl.i][12]]| == 1024
    ensures Shape(Attach(s, sl, b))
  {
    if sl.Entry? { PointerBlock(s, o, sl.i); }
    var t := Attach(s, sl, b);
    forall x: nat ensures BlockOk(t, x) { assert BlockOk(s, x); }
    forall i: nat ensures InodeOk(t, i) { assert InodeOk(s, i); }
  }

  lemma AttachTree(s: Image, o: map<nat, Slot>, sl: Slot, b: nat)
    requires CanAttach(s, o, sl, b)
    ensures sl.Entry? ==> s.addrs[sl.i][12] < |s.blocks| && |s.blocks[s.addrs[sl.i][12]]| == 1024
    ensures Tree(Attach(s, sl, b), o[b := sl])
  {
    AttachShape(s, o, sl, b);
    assert Marked(s, o, b);
    var t, u := Attach(s, sl, b), o[b := sl];
    forall x: Slot ensures Linked(t, u, x) {
      AttachAddr(s, o, sl, b, x);
      assert Linked(s, o, x) && Marked(s, o, AddrOf(s, x));
    }
    forall x: nat ensures Marked(t, u, x) {
      assert Marked(s, o, x);
      if x in o { AttachAddr(s, o, sl, b, o[x]); }
      AttachAddr(s, o, sl, b, sl);
    }
  }

  /** Giving a slot a fresh zeroed block changes no byte of any file. */
  lemma AttachByte(s: Image, o: map<nat, Slot>, sl: Slot, b: nat, i: nat, k: nat)
    requires CanAttach(s, o, sl, b)
    ensures sl.Entry? ==> s.addrs[sl.i][12] < |s.blocks| && |s.blocks[s.addrs[sl.i][12]]| == 1024
    ensures SameByte(s, Attach(s, sl, b), i, k)
  {
    var x := SlotFor(i, k / 1024);
    AttachAddr(s, o, sl, b, x);
    if sl.Entry? { PointerBlock(s, o, sl.i); }
    if x != sl && AddrOf(s, x) != 0 { DataBlock(s, o, x); }
  }

  // ------------------------------------------------- writing bytes of a file

  /** The image after a data block is given new bytes at off. */
  function Patch(s: Image, a: nat, off: nat, bytes: seq<nat>): Image
    requires a < |s.blocks| && |s.blocks[a]| == 1024 && off + |bytes| <= 1024
  {
    var b: Block := s.blocks[a][..off] + bytes + s.blocks[a][off + |bytes|..];
    s.(blocks := s.blocks[a := b])
  }

  lemma PatchAddr(s: Image, o: map<nat, Slot>, i: nat, bn: nat, off: nat, bytes: seq<nat>, x: Slot)
    requires Tree(s, o) && AddrOf(s, SlotFor(i, bn)) != 0 && off + |bytes| <= 1024
    ensures var a := AddrOf(s, SlotFor(i, bn)); a < |s.blocks| && |s.blocks[a]| == 1024
    ensures AddrOf(Patch(s, AddrOf(s, SlotFor(i, bn)), off, bytes), x) == AddrOf(s, x)
  {
    DataBlock(s, o, SlotFor(i, bn));
    if x.Entry? && AddrOf(s, Indirect(x.i)) != 0 { PointerBlock(s, o, x.i); }
  }

  lemma PatchTree(s: Image, o: map<nat, Slot>, i: nat, bn: nat, off: nat, bytes: seq<nat>)
    requires Tree(s, o) && AddrOf(s, SlotFor(i, bn)) != 0 && off + |bytes| <= 1024
    ensures var a := AddrOf(s, SlotFor(i, bn)); a < |s.blocks| && |s.blocks[a]| == 1024
    ensures Tree(Patch(s, AddrOf(s, SlotFor(i, bn)), off, bytes), o)
  {
    DataBlock(s, o, SlotFor(i, bn));
    var t := Patch(s, AddrOf(s, SlotFor(i, bn)), off, bytes);
    forall x: nat ensures BlockOk(t, x) { assert BlockOk(s, x); }
    forall j: nat ensures InodeOk(t, j) { assert InodeOk(s, j); }
    forall x: Slot ensures Linked(t, o, x) { PatchAddr(s, o, i, bn, off, bytes, x); assert Linked(s, o, x); }
    forall x: nat ensures Marked(t, o, x) {
      assert Marked(s, o, x);
      if x in o { PatchAddr(s, o, i, bn, off, bytes, o[x]); }
    }
  }

  /** Byte k of inode j after block bn of inode i got new bytes. */
  lemma PatchByte(s: Image, o: map<nat, Slot>, i: nat, bn: nat, off: nat, bytes: seq<nat>, j: nat, k: nat)
    requires Tree(s, o) && AddrOf(s, SlotFor(i, bn)) != 0 && off + |bytes| <= 1024
    ensures var a := AddrOf(s, SlotFor(i, bn)); a < |s.blocks| && |s.blocks[a]| == 1024
    ensures ByteAt(Patch(s, AddrOf(s, SlotFor(i, bn)), off, bytes), j, k) ==
            var p := bn * 1024 + off;
            if j == i && p <= k < p + |bytes| then bytes[k - p] else ByteAt(s, j, k)
  {
    var sl, x := SlotFor(i, bn), SlotFor(j, k / 1024);
    DataBlock(s, o, sl);
    PatchAddr(s, o, i, bn, off, bytes, x);
    if AddrOf(s, x) != 0 { DataBlock(s, o, x); }
    assert x == sl <==> j == i && k / 1024 == bn;
    assert k == k / 1024 * 1024 + k % 1024;
  }

  // ------------------------------------------------- freeing

  /** bfree: clear the bit. */
  function Clear(s: Image, b: nat): Image
    requires b < |s.bitmap|
  {
    s.(bitmap := s.bitmap[b := false])
  }

  /** While the entries of inode i are being freed: entry k < j no longer owns its block. */
  ghost predicate Gone(s: Image, o: map<nat, Slot>, i: nat, j: nat, k: nat) {
    k < j ==> AddrOf(s, Entry(i, k)) !in o
  }

  predicate Freed(sl: Slot, i: nat, j: nat) {
    sl.Entry? && sl.i == i && sl.k < j
  }

  ghost predicate LinkedBut(s: Image, o: map<nat, Slot>, i: nat, j: nat, sl: Slot) {
    Freed(sl, i, j) || Linked(s, o, sl)
  }

  /** Tree, but for the first j entries of inode i. */
  ghost predicate TreeBut(s: Image, o: map<nat, Slot>, i: nat, j: nat) {
    && Shape(s)
    && (forall sl: Slot :: LinkedBut(s, o, i, j, sl))
    && (forall b: nat :: Marked(s, o, b))
    && (forall k: nat :: Gone(s, o, i, j, k))
  }

  lemma StartFreeing(s: Image, o: map<nat, Slot>, i: nat)
    requires Tree(s, o)
    ensures TreeBut(s, o, i, 0)
  {
    forall sl: Slot ensures LinkedBut(s, o, i, 0, sl) { assert Linked(s, o, sl); }
  }

  /** Freeing the block of entry j. */
  lemma FreeEntry(s: Image, o: map<nat, Slot>, i: nat, j: nat)
    requires TreeBut(s, o, i, j) && AddrOf(s, Entry(i, j)) != 0
    ensures var a := AddrOf(s, Entry(i, j)); a < |s.bitmap| && s.bitmap[a] && TreeBut(Clear(s, a), o - {a}, i, j + 1)
  {
    var a := AddrOf(s, Entry(i, j));
    assert LinkedBut(s, o, i, j, Entry(i, j)) && Marked(s, o, a);
    var t, u, next := Clear(s, a), o - {a}, j + 1;
    forall b: nat ensures BlockOk(t, b) { assert BlockOk(s, b); }
    forall x: nat ensures InodeOk(t, x) { assert InodeOk(s, x); }
    forall sl: Slot ensures LinkedBut(t, u, i, next, sl) {
      assert AddrOf(t, sl) == AddrOf(s, sl) && LinkedBut(s, o, i, j, sl);
    }
    forall b: nat ensures Marked(t, u, b) {
      assert Marked(s, o, b);
      if b in o { assert AddrOf(t, o[b]) == AddrOf(s, o[b]); }
    }
    forall k: nat ensures Gone(t, u, i, next, k) {
      assert AddrOf(t, Entry(i, k)) == AddrOf(s, Entry(i, k)) && Gone(s, o, i, j, k);
    }
  }

  lemma SkipEntry(s: Image, o: map<nat, Slot>, i: nat, j: nat)
    requires TreeBut(s, o, i, j) && AddrOf(s, Entry(i, j)) == 0
    ensures TreeBut(s, o, i, j + 1)
  {
    var next := j + 1;
    assert Marked(s, o, 0);
    forall sl: Slot ensures LinkedBut(s, o, i, next, sl) { assert LinkedBut(s, o, i, j, sl); }
    forall k: nat ensures Gone(s, o, i, next, k) { assert Gone(s, o, i, j, k); }
  }

  /** The image after pointer k of inode i and its block are given up. */
  function Release(s: Image, i: nat, k: nat): Image
    requires i < |s.addrs| && k < |s.addrs[i]| && s.addrs[i][k] < |s.bitmap|
  {
    SetAddr(Clear(s, s.addrs[i][k]), i, k, 0)
  }

  lemma ReleaseShape(s: Image, i: nat, k: nat)
    requires Shape(s) && i < |s.addrs| && k < |s.addrs[i]| && s.addrs[i][k] < |s.bitmap|
    ensures Shape(Release(s, i, k))
  {
    var t := Release(s, i, k);
    forall b: nat ensures BlockOk(t, b) { assert BlockOk(s, b); }
    forall x: nat ensures InodeOk(t, x) { assert InodeOk(s, x); }
  }

  lemma ReleaseDirect(s: Image, o: map<nat, Slot>, i: nat, k: nat)
    requires Tree(s, o) && i < |s.addrs| && k < 12 && AddrOf(s, Direct(i, k)) != 0
    ensures k < |s.addrs[i]| && s.addrs[i][k] < |s.bitmap| && s.bitmap[s.addrs[i][k]]
    ensures Tree(Release(s, i, k), o - {s.addrs[i][k]})
  {
    DataBlock(s, o, Direct(i, k));
    var a := AddrOf(s, Direct(i, k));
    ReleaseShape(s, i, k);
    var t, u := Release(s, i, k), o - {a};
    forall sl: Slot ensures Linked(t, u, sl) { assert Linked(s, o, sl); }
    forall b: nat ensures Marked(t, u, b) { assert Marked(s, o, b) && Marked(s, o, a); }
  }

  /** Giving up the indirect block once all its entries are freed. */
  lemma ReleaseIndirect(s: Image, o: map<nat, Slot>, i: nat)
    requires TreeBut(s, o, i, 256) && i < |s.addrs| && AddrOf(s, Indirect(i)) != 0
    ensures |s.addrs[i]| == 13 && s.addrs[i][12] < |s.bitmap| && s.bitmap[s.addrs[i][12]]
    ensures Tree(Release(s, i, 12), o - {s.addrs[i][12]})
  {
    var a := AddrOf(s, Indirect(i));
    assert LinkedBut(s, o, i, 256, Indirect(i)) && Marked(s, o, a);
    ReleaseShape(s, i, 12);
    var t, u := Release(s, i, 12), o - {a};
    forall sl: Slot ensures Linked(t, u, sl) { assert LinkedBut(s, o, i, 256, sl); }
    forall b: nat ensures Marked(t, u, b) {
      assert Marked(s, o, b);
      if b in u && u[b].Entry? { assert Gone(s, o, i, 256, u[b].k); }
    }
  }
}

/**
 kernel/s5.c: balloc, bzero, bfree, bmap, itrunc, readi and writei over the image,
 refining a byte string for each inode.  The image is what readers see through the buffer
 cache.  When the copy from the user faults, writei leaves the bytes it got in the buffer
 without logging them; they are gone once the buffer is recycled.
 */
module S5File {
  import opened S5Image

  /** What writei gives back: the bytes written, -1, or the panic of balloc after some. */
  datatype Written = Done(tot: nat) | Refused | Panicked(tot: nat)

  /** What readi gives back: the bytes delivered, or -1 when the copy to the user fails. */
  datatype Delivered = Bytes(out: seq<nat>) | Fault

  // ------------------------------------------------- what the calls mean for a file

  const WORD32: nat := 0x1_0000_0000

  /** The tests at the head of writei; the sum is taken in 32 bits. */
  predicate WriteRefused(size: nat, off: nat, n: nat) {
    off > size || (off + n) % WORD32 < off || (off + n) % WORD32 > MAXFILE * BSIZE
  }

  /** How many bytes writei counts when the first avail bytes of the source can be read:
      it stops at the start of the block it could not fill. */
  function Counted(off: nat, n: nat, avail: nat): (tot: nat)
    ensures avail <= n ==> tot <= avail
  {
    if avail >= n then n else if (off + avail) / 1024 * 1024 <= off then 0 else (off + avail) / 1024 * 1024 - off
  }

  function Max(a: nat, b: nat): nat {
    if a < b then b else a
  }

  /** The file after the first len bytes of src are put at off, as long as size. */
  function Overwrite(file: seq<nat>, off: nat, src: seq<nat>, len: nat, size: nat): (r: seq<nat>)
    requires off <= |file| && len <= |src| && |file| <= size && size <= Max(|file|, off + len)
    ensures |r| == size
  {
    seq(size, k requires 0 <= k < size => if off <= k < off + len then src[k - off] else file[k])
  }

  /** The file after writei, as readers see it: the bytes counted, and those of the block it
      could not fill. */
  function WriteFile(file: seq<nat>, off: nat, src: seq<nat>, avail: nat): seq<nat>
    requires off <= |file| && avail <= |src|
  {
    Overwrite(file, off, src, avail, Max(|file|, off + Counted(off, |src|, avail)))
  }

  /** What readi delivers: the bytes from off, at most n, none when off is past the end or
      off + n overflows. */
  function Slice(file: seq<nat>, off: nat, n: nat): seq<nat> {
    if off > |file| || (off + n) % WORD32 < off then []
    else if off + n > |file| then file[off..]
    else file[off..off + n]
  }

  // ------------------------------------------------- the same, byte by byte

  /** writei refuses exactly a start behind the end and an end behind 268 blocks. */
  lemma RefusedLaw(size: nat, off: nat, n: nat)
    requires off < 0x1_0000_0000 && n < 0x1_0000_0000
    ensures WriteRefused(size, off, n) <==> off > size || off + n > 268 * 1024
  {
  }

  /** Without a fault writei counts everything; else it stops at the last block boundary that
      the readable bytes reach, or at once if they reach none. */
  lemma CountedLaw(off: nat, n: nat, avail: nat)
    requires avail <= n
    ensures var tot := Counted(off, n, avail);
            if avail == n then tot == n
            else tot <= avail && (tot == 0 || (off + tot) % 1024 == 0) && off + avail < off + tot - (off + tot) % 1024 + 1024
  {
  }

  /** The bytes of a file after a write. */
  lemma WriteLaw(file: seq<nat>, off: nat, src: seq<nat>, avail: nat)
    requires off <= |file| && avail <= |src|
    ensures var r, end := WriteFile(file, off, src, avail), off + Counted(off, |src|, avail);
            && |r| == (if end > |file| then end else |file|)
            && forall k :: 0 <= k < |r| ==> r[k] == if off <= k < off + avail then src[k - off] else file[k]
  {
    var r := WriteFile(file, off, src, avail);
  }

  /** A write at the end of a file appends. */
  lemma Append(file: seq<nat>, src: seq<nat>)
    ensures WriteFile(file, |file|, src, |src|) == file + src
  {
    WriteLaw(file, |file|, src, |src|);
  }

  /** The bytes of a file from off on: n of them, or those up to its end; none when off + n
      does not fit in 32 bits. */
  predicate Stretch(file: seq<nat>, off: nat, n: nat, out: seq<nat>) {
    && |out| == (if off >= |file| || off + n >= 0x1_0000_0000 then 0 else if off + n > |file| then |file| - off else n)
    && forall k :: 0 <= k < |out| ==> out[k] == file[off + k]
  }

  lemma SliceLaw(file: seq<nat>, off: nat, n: nat)
    requires off < 0x1_0000_0000 && n < 0x1_0000_0000
    ensures Stretch(file, off, n, Slice(file, off, n))
  {
  }

  /** A write that is not refused and can read its whole source is read back. */
  lemma ReadBack(file: seq<nat>, off: nat, src: seq<nat>)
    requires off < WORD32 && |src| < WORD32 && !WriteRefused(|file|, off, |src|)
    ensures Slice(WriteFile(file, off, src, |src|), off, |src|) == src
  {
    assert off + |src| < WORD32;
    var r := WriteFile(file, off, src, |src|);
    assert forall k :: 0 <= k < |src| ==> r[off + k] == src[k];
  }

  // ------------------------------------------------- blocks changed and not logged

  /** Block bn of inode i. */
  datatype Spot = Spot(i: nat, bn: nat)

  /** How many bytes of block bn belong to a file of that size. */
  function Visible(size: nat, bn: nat): (n: nat)
    ensures n <= 1024
  {
    if size <= bn * 1024 then 0 else if size < bn * 1024 + 1024 then size - bn * 1024 else 1024
  }

  /** The part of a file that lies in block bn. */
  function Part(file: seq<nat>, bn: nat): (p: seq<nat>)
    ensures |p| == Visible(|file|, bn)
  {
    if |file| <= bn * 1024 then [] else file[bn * 1024..bn * 1024 + Visible(|file|, bn)]
  }

  /** The file with the bytes `was` in block bn. */
  function Revert(file: seq<nat>, bn: nat, was: seq<nat>): seq<nat> {
    seq(|file|, k requires 0 <= k < |file| => if bn * 1024 <= k < bn * 1024 + |was| then was[k - bn * 1024] else file[k])
  }

  /** Some of the tot bytes at off of inode ino lie in the block. */
  predicate Touches(ino: nat, off: nat, tot: nat, sp: Spot) {
    sp.i == ino && tot > 0 && off / 1024 <= sp.bn <= (off + tot - 1) / 1024
  }

  /** The entries of the blocks that were not written. */
  function Unlogged<T>(m: map<Spot, T>, ino: nat, off: nat, tot: nat): map<Spot, T> {
    map sp | sp in m && !Touches(ino, off, tot, sp) :: m[sp]
  }

  /** The first loss counts: what the disk has does not change before the block is logged. */
  function AddTorn<T>(m: map<Spot, T>, sp: Spot, was: T): map<Spot, T> {
    if sp in m then m else m[sp := was]
  }

  /** The files as readers see them.  torn: the blocks with bytes that were never logged, and
      what their part of the file goes back to when the buffer is recycled. */
  datatype Store = Store(files: seq<seq<nat>>, torn: map<Spot, seq<nat>>)

  function TornWrite(torn: map<Spot, seq<nat>>, file: seq<nat>, i: nat, off: nat, src: seq<nat>, avail: nat): map<Spot, seq<nat>>
    requires off <= |file| && avail <= |src|
  {
    var tot := Counted(off, |src|, avail);
    var rest := Unlogged(torn, i, off, tot);
    if avail == |src| then rest
    else
      var sp := Spot(i, (off + tot) / 1024);
      AddTorn(rest, sp, Part(Overwrite(file, off, src, tot, Max(|file|, off + tot)), sp.bn))
  }

  // ------------------------------------------------- what a run of calls means

  /** Drop: the buffer of a block is recycled. */
  datatype Op =
    | Write(i: nat, off: nat, src: seq<nat>, avail: nat)
    | Read(i: nat, off: nat, n: nat, avail: nat)
    | Trunc(i: nat)
    | Drop(i: nat, bn: nat)

  /** The inode exists and the arguments are 32-bit. */
  predicate OpOk(inodes: nat, op: Op) {
    op.i < inodes && (op.Write? ==> op.off < WORD32 && |op.src| < WORD32 && op.avail <= |op.src|)
    && (op.Read? ==> op.off < WORD32 && op.n < WORD32)
  }

  function WriteStore(st: Store, i: nat, off: nat, src: seq<nat>, avail: nat): (r: Store)
    requires i < |st.files| && off <= |st.files[i]| && avail <= |src|
    ensures |r.files| == |st.files|
  {
    Store(st.files[i := WriteFile(st.files[i], off, src, avail)], TornWrite(st.torn, st.files[i], i, off, src, avail))
  }

  /** What a call does to byte strings. */
  function StoreStep(st: Store, op: Op): (r: Store)
    requires OpOk(|st.files|, op)
    ensures |r.files| == |st.files|
  {
    var file := st.files[op.i];
    match op
    case Write(i, off, src, avail) =>
      if WriteRefused(|file|, off, |src|) then st
      else WriteStore(st, i, off, src, avail)
    case Read(_, _, _, _) => st
    case Trunc(i) => Store(st.files[i := []], map sp | sp in st.torn && sp.i != i :: st.torn[sp])
    case Drop(i, bn) =>
      if Spot(i, bn) in st.torn
      then Store(st.files[i := Revert(file, bn, st.torn[Spot(i, bn)])], st.torn - {Spot(i, bn)})
      else st
  }

  datatype Reply = Wrote(w: Written) | Gave(d: Delivered) | Truncated | Dropped

  predicate Panics(r: Reply) {
    r.Wrote? && r.w.Panicked?
  }

  /** What a call on byte strings answers. */
  function FileReply(files: seq<seq<nat>>, op: Op): Reply
    requires OpOk(|files|, op)
  {
    match op
    case Write(i, off, src, avail) =>
      Wrote(if WriteRefused(|files[i]|, off, |src|) then Refused else Done(Counted(off, |src|, avail)))
    case Read(i, off, n, avail) =>
      var out := Slice(files[i], off, n);
      Gave(if avail < |out| then Fault else Bytes(out))
    case Trunc(_) => Truncated
    case Drop(_, _) => Dropped
  }

  ghost predicate StepAt(ops: seq<Op>, rs: seq<Reply>, trail: seq<Store>, k: nat) {
    k < |ops| && k < |rs| && k + 1 < |trail| ==>
      OpOk(|trail[k].files|, ops[k]) && rs[k] == FileReply(trail[k].files, ops[k]) && trail[k + 1] == StoreStep(trail[k], ops[k])
  }

  /** A run from trail[0]: every reply and every store follows from the store before. */
  ghost predicate History(ops: seq<Op>, rs: seq<Reply>, trail: seq<Store>) {
    |rs| <= |ops| && |trail| == |rs| + 1 && forall k: nat :: StepAt(ops, rs, trail, k)
  }

  lemma HistoryOn(ops: seq<Op>, rs: seq<Reply>, trail: seq<Store>, st: Store, r: Reply, next: Store)
    requires History(ops, rs, trail) && |rs| < |ops| && st == trail[|rs|] && OpOk(|st.files|, ops[|rs|])
    requires r == FileReply(st.files, ops[|rs|]) && next == StoreStep(st, ops[|rs|])
    ensures History(ops, rs + [r], trail + [next])
  {
    var more, long := rs + [r], trail + [next];
    forall k: nat ensures StepAt(ops, more, long, k) { assert StepAt(ops, rs, trail, k); }
  }

  /** Without faults in the source nothing is torn, and recycling a buffer is not seen. */
  lemma {:induction false} NoTears(ops: seq<Op>, rs: seq<Reply>, trail: seq<Store>, k: nat)
    requires History(ops, rs, trail) && k < |rs| && trail[0].torn == map[]
    requires forall j :: 0 <= j <= k && ops[j].Write? ==> ops[j].avail == |ops[j].src|
    ensures trail[k].torn == map[] && trail[k + 1].torn == map[]
    ensures ops[k].Drop? ==> trail[k + 1] == trail[k]
  {
    if k > 0 { NoTears(ops, rs, trail, k - 1); }
    assert StepAt(ops, rs, trail, k);
  }

  // ------------------------------------------------- what was written stays

  /** What is kept for a torn block fits into a block. */
  ghost predicate TornOk(torn: map<Spot, seq<nat>>) {
    forall sp :: sp in torn ==> |torn[sp]| <= 1024
  }

  lemma {:induction false} TornAt(ops: seq<Op>, rs: seq<Reply>, trail: seq<Store>, k: nat)
    requires History(ops, rs, trail) && k <= |rs| && TornOk(trail[0].torn)
    ensures TornOk(trail[k].torn)
  {
    if k > 0 {
      TornAt(ops, rs, trail, k - 1);
      assert StepAt(ops, rs, trail, k - 1);
    }
  }

  /** Byte k of file i is x, and x is what the disk is to have there. */
  ghost predicate Firm(st: Store, i: nat, k: nat, x: nat) {
    && i < |st.files| && k < |st.files[i]| && st.files[i][k] == x
    && (Spot(i, k / 1024) in st.torn && k % 1024 < |st.torn[Spot(i, k / 1024)]| ==> st.torn[Spot(i, k / 1024)][k % 1024] == x)
  }

  /** The call may put another byte at k of file i. */
  predicate Changes(op: Op, i: nat, k: nat) {
    op.i == i && (op.Trunc? || (op.Write? && op.off <= k < op.off + op.avail))
  }

  /** A whole write makes its bytes firm. */
  lemma WriteFirm(st: Store, i: nat, off: nat, src: seq<nat>, k: nat)
    requires i < |st.files| && off <= |st.files[i]| && off <= k < off + |src|
    ensures Firm(WriteStore(st, i, off, src, |src|), i, k, src[k - off])
  {
    WriteLaw(st.files[i], off, src, |src|);
    assert off / 1024 <= k / 1024 <= (off + |src| - 1) / 1024;
  }

  lemma FirmWrite(st: Store, op: Op, i: nat, k: nat, x: nat)
    requires Firm(st, i, k, x) && op.Write? && OpOk(|st.files|, op) && op.i == i && !Changes(op, i, k)
    requires !WriteRefused(|st.files[i]|, op.off, |op.src|)
    ensures Firm(StoreStep(st, op), i, k, x)
  {
    WriteLaw(st.files[i], op.off, op.src, op.avail);
    FirmTorn(st, op, i, k, x);
  }

  /** If the block of k is torn now, it goes back to x there. */
  lemma FirmTorn(st: Store, op: Op, i: nat, k: nat, x: nat)
    requires Firm(st, i, k, x) && op.Write? && OpOk(|st.files|, op) && op.i == i && !Changes(op, i, k) && op.off <= |st.files[i]|
    ensures var torn, sp := TornWrite(st.torn, st.files[i], i, op.off, op.src, op.avail), Spot(i, k / 1024);
            sp in torn && k % 1024 < |torn[sp]| ==> torn[sp][k % 1024] == x
  {
    var file, tot := st.files[i], Counted(op.off, |op.src|, op.avail);
    var kept := Overwrite(file, op.off, op.src, tot, Max(|file|, op.off + tot));
    assert kept[k] == x;
    if (op.off + tot) / 1024 == k / 1024 { assert Part(kept, k / 1024)[k % 1024] == x; }
  }

  lemma FirmStep(st: Store, op: Op, i: nat, k: nat, x: nat)
    requires Firm(st, i, k, x) && OpOk(|st.files|, op) && !Changes(op, i, k) && TornOk(st.torn)
    ensures Firm(StoreStep(st, op), i, k, x)
  {
    if op.Write? && op.i == i {
      if !WriteRefused(|st.files[i]|, op.off, |op.src|) { FirmWrite(st, op, i, k, x); }
    } else if op.Drop? && Spot(op.i, op.bn) in st.torn && op.i == i {
      var r := Revert(st.files[i], op.bn, st.torn[Spot(i, op.bn)]);
      assert r[k] == x;
    }
  }

  lemma {:induction false} StaysFirm(ops: seq<Op>, rs: seq<Reply>, trail: seq<Store>, a: nat, b: nat, i: nat, k: nat, x: nat)
    requires History(ops, rs, trail) && TornOk(trail[0].torn) && a <= b <= |rs| && Firm(trail[a], i, k, x)
    requires forall m :: a <= m < b ==> !Changes(ops[m], i, k)
    ensures Firm(trail[b], i, k, x)
    decreases b
  {
    if a < b {
      StaysFirm(ops, rs, trail, a, b - 1, i, k, x);
      assert StepAt(ops, rs, trail, b - 1);
      TornAt(ops, rs, trail, b - 1);
      FirmStep(trail[b - 1], ops[b - 1], i, k, x);
    }
  }

  /** A read gives the byte last written there, whatever is done to other bytes and other files
      and whichever buffers are recycled between. */
  lemma LastWritten(ops: seq<Op>, rs: seq<Reply>, trail: seq<Store>, a: nat, b: nat, k: nat)
    requires History(ops, rs, trail) && TornOk(trail[0].torn) && a < b < |rs| && ops[a].Write? && ops[b].Read? && ops[b].i == ops[a].i
    requires rs[a] == Wrote(Done(|ops[a].src|)) && ops[a].avail == |ops[a].src| && ops[a].off <= k < ops[a].off + |ops[a].src|
    requires forall m :: a < m < b ==> !Changes(ops[m], ops[a].i, k)
    requires ops[b].off <= k < ops[b].off + ops[b].n < WORD32 && rs[b] != Gave(Fault)
    ensures rs[b].Gave? && rs[b].d.Bytes? && k - ops[b].off < |rs[b].d.out|
    ensures rs[b].d.out[k - ops[b].off] == ops[a].src[k - ops[a].off]
  {
    assert StepAt(ops, rs, trail, a) && StepAt(ops, rs, trail, b);
    var i, x := ops[a].i, ops[a].src[k - ops[a].off];
    WriteFirm(trail[a], i, ops[a].off, ops[a].src, k);
    StaysFirm(ops, rs, trail, a + 1, b, i, k, x);
    SliceLaw(trail[b].files[i], ops[b].off, ops[b].n);
  }

  /** A call on one file leaves the others. */
  lemma OtherFiles(st: Store, op: Op, i: nat)
    requires OpOk(|st.files|, op) && i < |st.files| && i != op.i
    ensures StoreStep(st, op).files[i] == st.files[i]
  {
  }

  /** The file when the block with the uncounted bytes of a faulting write has gone back. */
  function GoneBack(file: seq<nat>, off: nat, src: seq<nat>, avail: nat, tot: nat): seq<nat>
    requires off <= |file| && tot <= avail <= |src|
  {
    var kept := Overwrite(file, off, src, tot, Max(|file|, off + tot));
    Revert(WriteFile(file, off, src, avail), (off + tot) / 1024, Part(kept, (off + tot) / 1024))
  }

  /** Recycling the block that a faulting write tore leaves what the write counted. */
  lemma DropUndoes(st: Store, i: nat, off: nat, src: seq<nat>, avail: nat)
    requires OpOk(|st.files|, Write(i, off, src, avail)) && !WriteRefused(|st.files[i]|, off, |src|) && avail < |src|
    requires Spot(i, (off + Counted(off, |src|, avail)) / 1024) !in st.torn
    ensures var tot := Counted(off, |src|, avail);
            var t := StoreStep(StoreStep(st, Write(i, off, src, avail)), Drop(i, (off + tot) / 1024));
            t.files[i] == WriteFile(st.files[i], off, src[..tot], tot)
  {
    var tot := Counted(off, |src|, avail);
    UndoneFile(st.files[i], off, src, avail, tot);
  }

  lemma UndoneFile(file: seq<nat>, off: nat, src: seq<nat>, avail: nat, tot: nat)
    requires off <= |file| && avail < |src| && tot == Counted(off, |src|, avail)
    ensures GoneBack(file, off, src, avail, tot) == WriteFile(file, off, src[..tot], tot)
  {
    var r, kept := GoneBack(file, off, src, avail, tot), Overwrite(file, off, src, tot, Max(|file|, off + tot));
    KeptFile(file, off, src, tot);
    forall k | 0 <= k < |r| ensures r[k] == kept[k] { UndoneByte(file, off, src, avail, tot, k); }
    assert r == kept;
  }

  lemma KeptFile(file: seq<nat>, off: nat, src: seq<nat>, tot: nat)
    requires off <= |file| && tot <= |src|
    ensures WriteFile(file, off, src[..tot], tot) == Overwrite(file, off, src, tot, Max(|file|, off + tot))
  {
  }

  lemma UndoneByte(file: seq<nat>, off: nat, src: seq<nat>, avail: nat, tot: nat, k: nat)
    requires off <= |file| && avail < |src| && tot == Counted(off, |src|, avail)
    ensures k < |GoneBack(file, off, src, avail, tot)| ==>
              GoneBack(file, off, src, avail, tot)[k] == Overwrite(file, off, src, tot, Max(|file|, off + tot))[k]
  {
    CountedLaw(off, |src|, avail);
  }

  /** After a write that faulted two equal reads can differ: the buffer was recycled between. */
  lemma TornReads()
    ensures var st := StoreStep(Store([[1, 2]], map[]), Write(0, 0, [7, 9], 1));
            && FileReply(st.files, Read(0, 0, 2, 2)) == Gave(Bytes([7, 2]))
            && FileReply(StoreStep(st, Drop(0, 0)).files, Read(0, 0, 2, 2)) == Gave(Bytes([1, 2]))
  {
    var st := StoreStep(Store([[1, 2]], map[]), Write(0, 0, [7, 9], 1));
    assert Counted(0, 2, 1) == 0;
    assert Overwrite([1, 2], 0, [7, 9], 0, 2) == [1, 2] && Part([1, 2], 0) == [1, 2];
    assert Overwrite([1, 2], 0, [7, 9], 1, 2) == [7, 2];
    assert st.files == [[7, 2]] && Spot(0, 0) in st.torn && st.torn[Spot(0, 0)] == [1, 2];
    assert Revert([7, 2], 0, [1, 2]) == [1, 2];
    assert Slice([7, 2], 0, 2) == [7, 2] && Slice([1, 2], 0, 2) == [1, 2];
  }

  // ------------------------------------------------- what a call does to the image

  /** The files of an image. */
  ghost function FilesOf(s: Image): seq<seq<nat>> {
    seq(|s.sizes|, i requires 0 <= i < |s.sizes| => Content(s, i))
  }

  lemma OneFile(s: Image, t: Image, ino: nat, file: seq<nat>)
    requires |t.sizes| == |s.sizes| && ino < |s.sizes| && Content(t, ino) == file
    requires forall i :: 0 <= i < |s.sizes| && i != ino ==> Content(t, i) == Content(s, i)
    ensures FilesOf(t) == FilesOf(s)[ino := file]
  {
  }


  /** The byte at k of inode i after bytes were put at pos of inode ino. */
  ghost predicate Altered(s: Image, t: Image, ino: nat, pos: nat, bytes: seq<nat>, i: nat, k: nat) {
    ByteAt(t, i, k) == if i == ino && pos <= k < pos + |bytes| then bytes[k - pos] else ByteAt(s, i, k)
  }

  /** A slot that has a block keeps it. */
  ghost predicate Kept(s: Image, t: Image, sl: Slot) {
    AddrOf(s, sl) != 0 ==> AddrOf(t, sl) == AddrOf(s, sl)
  }

  /** The blocks that hold the tot bytes at off are there. */
  ghost predicate Covered(s: Image, ino: nat, off: nat, tot: nat, bn: nat) {
    tot > 0 && off / 1024 <= bn && bn * 1024 < off + tot ==> AddrOf(s, SlotFor(ino, bn)) != 0
  }

  /** writei stops at the start of the block that holds the first byte it cannot read. */
  lemma BlockStart(off: nat, n: nat, avail: nat, tot: nat)
    requires tot <= avail < n && off + avail < (off + tot) / 1024 * 1024 + 1024
    requires tot == 0 || (off + tot) % 1024 == 0
    ensures Counted(off, n, avail) == tot
  {
    assert (off + avail) / 1024 == (off + tot) / 1024;
  }

  /** From s, tot bytes of src were put at off of inode ino and nothing else changed. */
  ghost predicate Progress(s: Image, t: Image, ino: nat, off: nat, bytes: seq<nat>) {
    && t.sizes == s.sizes && |t.addrs| == |s.addrs|
    && (forall i: nat, k: nat :: Altered(s, t, ino, off, bytes, i, k))
    && (forall x: Slot :: Kept(s, t, x))
    && (forall bn: nat :: Covered(t, ino, off, |bytes|, bn))
  }

  lemma ProgressStep(s: Image, t: Image, u: Image, ino: nat, off: nat, tot: nat, len: nat, src: seq<nat>)
    requires tot + len <= |src| && len <= 1024 - (off + tot) % 1024
    requires Progress(s, t, ino, off, src[..tot]) && Progress(t, u, ino, off + tot, src[tot..tot + len])
    ensures Progress(s, u, ino, off, src[..tot + len])
  {
    var pos, done, more, all := off + tot, src[..tot], src[tot..tot + len], src[..tot + len];
    forall i: nat, k: nat ensures Altered(s, u, ino, off, all, i, k) {
      assert Altered(s, t, ino, off, done, i, k) && Altered(t, u, ino, pos, more, i, k);
    }
    forall x: Slot ensures Kept(s, u, x) { assert Kept(s, t, x) && Kept(t, u, x); }
    forall bn: nat ensures Covered(u, ino, off, |all|, bn) {
      assert Covered(t, ino, off, |done|, bn) && Kept(t, u, SlotFor(ino, bn)) && Covered(u, ino, pos, |more|, bn);
    }
  }

  /** Setting the size after the loop of writei. */
  lemma ResizeTree(s: Image, o: map<nat, Slot>, ino: nat, size: nat)
    requires Tree(s, o) && ino < |s.sizes| && size <= MAXFILE * BSIZE
    ensures Tree(s.(sizes := s.sizes[ino := size]), o)
    ensures forall i: nat, k: nat :: ByteAt(s.(sizes := s.sizes[ino := size]), i, k) == ByteAt(s, i, k)
    ensures forall sl: Slot :: AddrOf(s.(sizes := s.sizes[ino := size]), sl) == AddrOf(s, sl)
  {
    var t := s.(sizes := s.sizes[ino := size]);
    forall sl: Slot ensures AddrOf(t, sl) == AddrOf(s, sl) {}
    forall b: nat ensures BlockOk(t, b) { assert BlockOk(s, b); }
    forall i: nat ensures InodeOk(t, i) { assert InodeOk(s, i); }
    forall sl: Slot ensures Linked(t, o, sl) { assert Linked(s, o, sl); }
    forall b: nat ensures Marked(t, o, b) { assert Marked(s, o, b); }
  }

  /** After the loop of writei and the new size no file has a hole. */
  lemma WriteFilled(s: Image, t: Image, ino: nat, off: nat, bytes: seq<nat>, tot: nat)
    requires Filled(s) && Progress(s, t, ino, off, bytes) && tot <= |bytes|
    requires ino < |s.sizes| && off <= s.sizes[ino]
    ensures Filled(t.(sizes := t.sizes[ino := Max(t.sizes[ino], off + tot)]))
  {
    var u := t.(sizes := t.sizes[ino := Max(t.sizes[ino], off + tot)]);
    forall i: nat, bn: nat ensures HasBlock(u, i, bn) {
      assert HasBlock(s, i, bn) && Kept(s, t, SlotFor(i, bn)) && Covered(t, ino, off, |bytes|, bn);
      assert AddrOf(u, SlotFor(i, bn)) == AddrOf(t, SlotFor(i, bn));
    }
  }

  lemma ResizeByte(s: Image, sizes: seq<nat>, i: nat, k: nat)
    ensures ByteAt(s.(sizes := sizes), i, k) == ByteAt(s, i, k)
  {
    assert AddrOf(s.(sizes := sizes), SlotFor(i, k / 1024)) == AddrOf(s, SlotFor(i, k / 1024));
  }

  /** The contents after the loop of writei and the new size. */
  lemma WriteContent(s: Image, t: Image, ino: nat, off: nat, src: seq<nat>, avail: nat)
    requires avail <= |src| && Progress(s, t, ino, off, src[..avail])
    requires ino < |s.sizes| && off <= s.sizes[ino]
    ensures var u := t.(sizes := t.sizes[ino := Max(t.sizes[ino], off + Counted(off, |src|, avail))]);
            Content(u, ino) == WriteFile(Content(s, ino), off, src, avail)
  {
    var size := Max(t.sizes[ino], off + Counted(off, |src|, avail));
    var u := t.(sizes := t.sizes[ino := size]);
    var bytes := src[..avail];
    var want := WriteFile(Content(s, ino), off, src, avail);
    forall k: nat | k < size ensures ByteAt(u, ino, k) == want[k] {
      ResizeByte(t, u.sizes, ino, k);
      assert Altered(s, t, ino, off, bytes, ino, k);
    }
  }

  lemma OtherContent(s: Image, t: Image, ino: nat, off: nat, bytes: seq<nat>, size: nat, i: nat)
    requires Progress(s, t, ino, off, bytes) && ino < |s.sizes| && i < |s.sizes| && i != ino
    ensures Content(t.(sizes := t.sizes[ino := size]), i) == Content(s, i)
  {
    var u := t.(sizes := t.sizes[ino := size]);
    forall k: nat | k < s.sizes[i] ensures ByteAt(u, i, k) == ByteAt(s, i, k) {
      ResizeByte(t, u.sizes, i, k);
      assert Altered(s, t, ino, off, bytes, i, k);
    }
  }

  lemma OthersStay(s: Image, t: Image, ino: nat, off: nat, bytes: seq<nat>, size: nat)
    requires Progress(s, t, ino, off, bytes) && ino < |s.sizes|
    ensures forall i :: 0 <= i < |s.sizes| && i != ino ==> Content(t.(sizes := t.sizes[ino := size]), i) == Content(s, i)
  {
    forall i: nat | i < |s.sizes| && i != ino ensures Content(t.(sizes := t.sizes[ino := size]), i) == Content(s, i) {
      OtherContent(s, t, ino, off, bytes, size, i);
    }
  }

  /** A write that stops at the panic of balloc: the bytes so far are in place, the size is
      the old one and no file has a hole. */
  lemma TornFile(s: Image, t: Image, ino: nat, off: nat, src: seq<nat>, tot: nat)
    requires tot <= |src| && Progress(s, t, ino, off, src[..tot]) && ino < |s.sizes| && off <= s.sizes[ino] && Filled(s)
    ensures Filled(t) && FilesOf(t) == FilesOf(s)[ino := Overwrite(Content(s, ino), off, src, tot, s.sizes[ino])]
  {
    OthersStay(s, t, ino, off, src[..tot], t.sizes[ino]);
    assert t.(sizes := t.sizes[ino := t.sizes[ino]]) == t;
    var bytes := src[..tot];
    forall i: nat, bn: nat ensures HasBlock(t, i, bn) { assert HasBlock(s, i, bn) && Kept(s, t, SlotFor(i, bn)); }
    var want := Overwrite(Content(s, ino), off, src, tot, s.sizes[ino]);
    forall k: nat | k < s.sizes[ino] ensures ByteAt(t, ino, k) == want[k] {
      assert Altered(s, t, ino, off, bytes, ino, k);
    }
    OneFile(s, t, ino, want);
  }

  /** The bytes of a file that lie in one block are consecutive in that block. */
  lemma ReadChunk(s: Image, ino: nat, pos: nat, m: nat, addr: nat)
    requires ino < |s.sizes| && pos + m <= s.sizes[ino] && m <= 1024 - pos % 1024
    requires addr == AddrOf(s, SlotFor(ino, pos / 1024)) && addr != 0 && addr < |s.blocks| && |s.blocks[addr]| == 1024
    ensures s.blocks[addr][pos % 1024..pos % 1024 + m] == Content(s, ino)[pos..pos + m]
  {
    forall x: nat | pos <= x < pos + m
      ensures ByteAt(s, ino, x) == s.blocks[addr][x % 1024] && x % 1024 == pos % 1024 + (x - pos)
    {
      assert x / 1024 == pos / 1024;
    }
  }

  /** Truncating: direct pointers of inode i below k are gone, everything else is as before. */
  ghost predicate Cut(s: Image, t: Image, i: nat, k: nat, sl: Slot) {
    AddrOf(t, sl) == if sl.Direct? && sl.i == i && sl.k < k then 0 else AddrOf(s, sl)
  }

  /** Truncating: inode i has no block left, every other one keeps its own. */
  ghost predicate Emptied(s: Image, t: Image, i: nat, sl: Slot) {
    AddrOf(t, sl) == if sl.i == i then 0 else AddrOf(s, sl)
  }

  /** Dropping a direct pointer touches that slot only. */
  lemma ReleaseAddr(s: Image, t: Image, i: nat, k: nat, sl: Slot)
    requires Shape(s) && i < |s.addrs| && k < 12 && k < |s.addrs[i]| && s.addrs[i][k] < |s.bitmap|
    requires t == if s.addrs[i][k] != 0 then Release(s, i, k) else s
    ensures AddrOf(t, sl) == if sl == Direct(i, k) then 0 else AddrOf(s, sl)
  {
  }

  ghost predicate OtherByte(s: Image, t: Image, ino: nat, i: nat, k: nat) {
    i != ino ==> ByteAt(t, i, k) == ByteAt(s, i, k)
  }

  /** How many of n bytes from pos lie in its block. */
  function Chunk(pos: nat, n: nat): (m: nat)
    ensures m <= n && m <= 1024 - pos % 1024 && (n > 0 ==> m > 0)
  {
    if n < 1024 - pos % 1024 then n else 1024 - pos % 1024
  }

  lemma ChunkEnds(pos: nat, n: nat)
    ensures Chunk(pos, n) == n || (pos + Chunk(pos, n)) % 1024 == 0
  {
    assert pos == 1024 * (pos / 1024) + pos % 1024;
  }

  /** A sum that passes the tests of writei did not wrap. */
  lemma NoWrap(off: nat, n: nat)
    requires off < WORD32 && n < WORD32 && off <= (off + n) % WORD32
    ensures off + n < WORD32
  {
  }

  // ------------------------------------------------- the disk behind torn blocks

  ghost predicate CleanAt(s: Image, clean: map<Spot, Block>, sp: Spot) {
    sp in clean ==> sp.i < |s.sizes| && |clean[sp]| == 1024 && AddrOf(s, SlotFor(sp.i, sp.bn)) != 0
  }

  /** The entries are whole blocks of files. */
  ghost predicate CleanOk(s: Image, clean: map<Spot, Block>) {
    forall sp: Spot :: CleanAt(s, clean, sp)
  }

  /** What the files go back to. */
  function Torn(sizes: seq<nat>, clean: map<Spot, Block>): map<Spot, seq<nat>> {
    map sp | sp in clean && sp.i < |sizes| && |clean[sp]| == 1024 :: clean[sp][..Visible(sizes[sp.i], sp.bn)]
  }

  ghost function StoreOf(s: Image, clean: map<Spot, Block>): Store {
    Store(FilesOf(s), Torn(s.sizes, clean))
  }

  lemma CleanKept(s: Image, t: Image, clean: map<Spot, Block>, less: map<Spot, Block>)
    requires CleanOk(s, clean) && |t.sizes| == |s.sizes| && forall x: Slot :: Kept(s, t, x)
    requires forall sp :: sp in less ==> sp in clean && less[sp] == clean[sp]
    ensures CleanOk(t, less)
  {
    forall sp: Spot ensures CleanAt(t, less, sp) { assert CleanAt(s, clean, sp) && Kept(s, t, SlotFor(sp.i, sp.bn)); }
  }

  /** was are the bytes of block bn of inode ino. */
  ghost predicate WasAt(s: Image, ino: nat, bn: nat, was: Block) {
    |was| == 1024 && forall x: nat :: x < 1024 ==> was[x] == ByteAt(s, ino, bn * 1024 + x)
  }

  lemma WasBlock(s: Image, ino: nat, bn: nat, a: nat)
    requires a == AddrOf(s, SlotFor(ino, bn)) && a != 0 && a < |s.blocks| && |s.blocks[a]| == 1024
    ensures WasAt(s, ino, bn, s.blocks[a])
  {
    forall x: nat | x < 1024 ensures s.blocks[a][x] == ByteAt(s, ino, bn * 1024 + x) {
      assert (bn * 1024 + x) / 1024 == bn && (bn * 1024 + x) % 1024 == x;
    }
  }

  lemma WasSame(s: Image, t: Image, ino: nat, bn: nat, was: Block)
    requires WasAt(t, ino, bn, was) && forall i: nat, k: nat :: SameByte(s, t, i, k)
    ensures WasAt(s, ino, bn, was)
  {
    forall x: nat | x < 1024 ensures was[x] == ByteAt(s, ino, bn * 1024 + x) {
      assert SameByte(s, t, ino, bn * 1024 + x);
    }
  }

  /** The blocks logged so far and those of the next turn. */
  lemma UnloggedOn<T>(m: map<Spot, T>, ino: nat, off: nat, tot: nat, len: nat)
    requires 0 < len <= 1024 - (off + tot) % 1024 && (tot == 0 || (off + tot) % 1024 == 0)
    ensures Unlogged(m, ino, off, tot + len) == Unlogged(m, ino, off, tot) - {Spot(ino, (off + tot) / 1024)}
  {
    forall sp: Spot ensures Touches(ino, off, tot + len, sp) <==> Touches(ino, off, tot, sp) || sp == Spot(ino, (off + tot) / 1024) {
      NextTouch(ino, off, tot, len, sp);
    }
  }

  lemma NextTouch(ino: nat, off: nat, tot: nat, len: nat, sp: Spot)
    requires 0 < len <= 1024 - (off + tot) % 1024 && (tot == 0 || (off + tot) % 1024 == 0)
    ensures Touches(ino, off, tot + len, sp) <==> Touches(ino, off, tot, sp) || sp == Spot(ino, (off + tot) / 1024)
  {
    var p := off + tot;
    assert (p + len - 1) / 1024 == p / 1024;
    assert tot > 0 ==> (p - 1) / 1024 == p / 1024 - 1;
  }

  /** A write that grows the file leaves the blocks it did not log as much of the file. */
  lemma VisibleKept(size: nat, off: nat, tot: nat, ino: nat, sp: Spot)
    requires off <= size && sp.i == ino && !Touches(ino, off, tot, sp)
    ensures Visible(Max(size, off + tot), sp.bn) == Visible(size, sp.bn)
  {
  }

  lemma UnloggedTorn(sizes: seq<nat>, clean: map<Spot, Block>, ino: nat, off: nat, tot: nat)
    requires ino < |sizes| && off <= sizes[ino]
    ensures Torn(sizes[ino := Max(sizes[ino], off + tot)], Unlogged(clean, ino, off, tot)) == Unlogged(Torn(sizes, clean), ino, off, tot)
  {
    var more := sizes[ino := Max(sizes[ino], off + tot)];
    var a, b := Torn(more, Unlogged(clean, ino, off, tot)), Unlogged(Torn(sizes, clean), ino, off, tot);
    forall sp: Spot ensures (sp in a <==> sp in b) && (sp in a ==> a[sp] == b[sp]) {
      if sp in a && sp.i == ino { VisibleKept(sizes[ino], off, tot, ino, sp); }
    }
  }

  /** The bytes that a torn block had are its part of the file as logged. */
  lemma TornPart(s: Image, t: Image, ino: nat, off: nat, src: seq<nat>, tot: nat, bn: nat, was: Block)
    requires tot <= |src| && Progress(s, t, ino, off, src[..tot]) && ino < |s.sizes| && off <= s.sizes[ino] && WasAt(t, ino, bn, was)
    ensures var size := Max(s.sizes[ino], off + tot);
            was[..Visible(size, bn)] == Part(Overwrite(Content(s, ino), off, src, tot, size), bn)
  {
    var size := Max(s.sizes[ino], off + tot);
    var file := Overwrite(Content(s, ino), off, src, tot, size);
    forall x: nat | x < Visible(size, bn) ensures was[x] == file[bn * 1024 + x] {
      assert Altered(s, t, ino, off, src[..tot], ino, bn * 1024 + x);
    }
  }

  lemma AddTornOn(sizes: seq<nat>, clean: map<Spot, Block>, sp: Spot, was: Block)
    requires sp.i < |sizes| && |was| == 1024
    requires sp in clean ==> |clean[sp]| == 1024
    ensures Torn(sizes, AddTorn(clean, sp, was)) == AddTorn(Torn(sizes, clean), sp, was[..Visible(sizes[sp.i], sp.bn)])
  {
  }

  lemma DroppedImage(s: Image, o: map<nat, Slot>, ino: nat, bn: nat, was: Block, before: map<Spot, Block>, after: map<Spot, Block>)
    requires Tree(s, o) && Filled(s) && CleanOk(s, before) && ino < |s.sizes| && |was| == 1024
    requires AddrOf(s, SlotFor(ino, bn)) != 0 && after == before - {Spot(ino, bn)}
    ensures var a := AddrOf(s, SlotFor(ino, bn)); a < |s.blocks| && |s.blocks[a]| == 1024
    ensures var t := Patch(s, AddrOf(s, SlotFor(ino, bn)), 0, was);
            && Filled(t) && CleanOk(t, after) && t.sizes == s.sizes
            && FilesOf(t) == FilesOf(s)[ino := Revert(Content(s, ino), bn, was[..Visible(s.sizes[ino], bn)])]
  {
    PatchTree(s, o, ino, bn, 0, was);
    var t := Patch(s, AddrOf(s, SlotFor(ino, bn)), 0, was);
    forall i: nat, b: nat ensures HasBlock(t, i, b) {
      assert HasBlock(s, i, b);
      PatchAddr(s, o, ino, bn, 0, was, SlotFor(i, b));
    }
    forall sp: Spot ensures CleanAt(t, after, sp) {
      assert CleanAt(s, before, sp);
      PatchAddr(s, o, ino, bn, 0, was, SlotFor(sp.i, sp.bn));
    }
    forall i: nat, k: nat ensures ByteAt(t, i, k) == if i == ino && bn * 1024 <= k < bn * 1024 + 1024 then was[k - bn * 1024] else ByteAt(s, i, k) {
      PatchByte(s, o, ino, bn, 0, was, i, k);
    }
    OneFile(s, t, ino, Revert(Content(s, ino), bn, was[..Visible(s.sizes[ino], bn)]));
  }

  /** The entries of torn blocks before and after the loop of writei: t is the image before a
      torn turn, was the bytes the block had. */
  ghost predicate Tears(s: Image, t: Image, before: map<Spot, Block>, after: map<Spot, Block>, ino: nat, off: nat, src: seq<nat>,
                        avail: nat, was: Block) {
    avail <= |src| &&
    var tot := Counted(off, |src|, avail);
    if avail == |src| then after == Unlogged(before, ino, off, tot)
    else
      && Progress(s, t, ino, off, src[..tot]) && WasAt(t, ino, (off + tot) / 1024, was)
      && after == AddTorn(Unlogged(before, ino, off, tot), Spot(ino, (off + tot) / 1024), was)
  }

  /** The torn blocks after writei. */
  lemma WriteTears(s: Image, t: Image, before: map<Spot, Block>, after: map<Spot, Block>, ino: nat, off: nat, src: seq<nat>,
                   avail: nat, was: Block)
    requires Tears(s, t, before, after, ino, off, src, avail, was) && ino < |s.sizes| && off <= s.sizes[ino] && CleanOk(s, before)
    ensures Torn(s.sizes[ino := Max(s.sizes[ino], off + Counted(off, |src|, avail))], after)
            == TornWrite(Torn(s.sizes, before), Content(s, ino), ino, off, src, avail)
  {
    var tot := Counted(off, |src|, avail);
    UnloggedTorn(s.sizes, before, ino, off, tot);
    if avail < |src| { WriteTearsOne(s, t, before, after, ino, off, src, avail, was); }
  }

  lemma WriteTearsOne(s: Image, t: Image, before: map<Spot, Block>, after: map<Spot, Block>, ino: nat, off: nat, src: seq<nat>,
                      avail: nat, was: Block)
    requires Tears(s, t, before, after, ino, off, src, avail, was) && ino < |s.sizes| && off <= s.sizes[ino] && CleanOk(s, before)
    requires avail < |src|
    ensures Torn(s.sizes[ino := Max(s.sizes[ino], off + Counted(off, |src|, avail))], after)
            == TornWrite(Torn(s.sizes, before), Content(s, ino), ino, off, src, avail)
  {
    var tot := Counted(off, |src|, avail);
    UnloggedTorn(s.sizes, before, ino, off, tot);
    var sizes, sp := s.sizes[ino := Max(s.sizes[ino], off + tot)], Spot(ino, (off + tot) / 1024);
    assert CleanAt(s, before, sp);
    AddTornOn(sizes, Unlogged(before, ino, off, tot), sp, was);
    TornPart(s, t, ino, off, src, tot, sp.bn, was);
  }

  /** The image and the files after writei has set the size. */
  lemma WriteDone(s: Image, t: Image, o: map<nat, Slot>, clean: map<Spot, Block>, ino: nat, off: nat, src: seq<nat>, avail: nat)
    requires avail <= |src| && Progress(s, t, ino, off, src[..avail]) && Filled(s) && Tree(t, o) && CleanOk(t, clean)
    requires ino < |s.sizes| && off <= s.sizes[ino] <= MAXFILE * BSIZE && off + |src| <= MAXFILE * BSIZE
    ensures var u := t.(sizes := t.sizes[ino := Max(t.sizes[ino], off + Counted(off, |src|, avail))]);
            && Tree(u, o) && Filled(u) && CleanOk(u, clean)
            && FilesOf(u) == FilesOf(s)[ino := WriteFile(Content(s, ino), off, src, avail)]
  {
    var tot := Counted(off, |src|, avail);
    var size := Max(t.sizes[ino], off + tot);
    var u := t.(sizes := t.sizes[ino := size]);
    ResizeTree(t, o, ino, size);
    WriteFilled(s, t, ino, off, src[..avail], tot);
    WriteContent(s, t, ino, off, src, avail);
    OthersStay(s, t, ino, off, src[..avail], size);
    OneFile(s, u, ino, WriteFile(Content(s, ino), off, src, avail));
    forall sp: Spot ensures CleanAt(u, clean, sp) { assert CleanAt(t, clean, sp); }
  }

  /** The store after writei. */
  lemma WriteResult(s: Image, t0: Image, t: Image, o: map<nat, Slot>, before: map<Spot, Block>, after: map<Spot, Block>,
                    ino: nat, off: nat, src: seq<nat>, avail: nat, was: Block)
    requires avail <= |src| && Progress(s, t, ino, off, src[..avail]) && Filled(s) && Tree(t, o)
    requires CleanOk(s, before) && CleanOk(t, after)
    requires ino < |s.sizes| && off <= s.sizes[ino] <= MAXFILE * BSIZE && off + |src| <= MAXFILE * BSIZE
    requires Tears(s, t0, before, after, ino, off, src, avail, was)
    ensures var u := t.(sizes := t.sizes[ino := Max(t.sizes[ino], off + Counted(off, |src|, avail))]);
            && Tree(u, o) && Filled(u) && CleanOk(u, after)
            && StoreOf(u, after) == WriteStore(StoreOf(s, before), ino, off, src, avail)
  {
    WriteDone(s, t, o, after, ino, off, src, avail);
    WriteTears(s, t0, before, after, ino, off, src, avail, was);
  }

  /** The image and the files after itrunc. */
  lemma TruncDone(s: Image, u: Image, o: map<nat, Slot>, before: map<Spot, Block>, ino: nat)
    requires Filled(s) && Tree(u, o) && CleanOk(s, before) && u.sizes == s.sizes && ino < |s.sizes|
    requires (forall sl: Slot :: Emptied(s, u, ino, sl)) && forall i: nat, k: nat :: OtherByte(s, u, ino, i, k)
    ensures var t := u.(sizes := u.sizes[ino := 0]);
            var after := map sp | sp in before && sp.i != ino :: before[sp];
            && Tree(t, o) && Filled(t) && CleanOk(t, after) && (forall sl: Slot :: Emptied(s, t, ino, sl))
            && FilesOf(t) == FilesOf(s)[ino := []]
            && Torn(t.sizes, after) == map sp | sp in Torn(s.sizes, before) && sp.i != ino :: Torn(s.sizes, before)[sp]
  {
    var t := u.(sizes := u.sizes[ino := 0]);
    var after := map sp | sp in before && sp.i != ino :: before[sp];
    ResizeTree(u, o, ino, 0);
    forall sl: Slot ensures Emptied(s, t, ino, sl) { assert Emptied(s, u, ino, sl); }
    forall sp: Spot ensures CleanAt(t, after, sp) { assert CleanAt(s, before, sp) && Emptied(s, t, ino, SlotFor(sp.i, sp.bn)); }
    forall i: nat, bn: nat ensures HasBlock(t, i, bn) { assert HasBlock(s, i, bn) && Emptied(s, t, ino, SlotFor(i, bn)); }
    forall i: nat | i < |s.sizes| && i != ino ensures Content(t, i) == Content(s, i) {
      forall k: nat ensures ByteAt(t, i, k) == ByteAt(s, i, k) { assert OtherByte(s, u, ino, i, k); }
    }
    OneFile(s, t, ino, []);
  }

  class FileSystem {
    const start: nat
    var bitmap: seq<bool>
    var blocks: seq<Block>
    var addrs: seq<seq<nat>>
    var sizes: seq<nat>
    var clean: map<Spot, Block>        // what the disk has of the blocks with bytes never logged
    ghost var owner: map<nat, Slot>

    ghost function Img(): Image
      reads this
    {
      Image(bitmap, blocks, addrs, sizes, start)
    }

    ghost predicate Valid()
      reads this
    {
      Tree(Img(), owner) && Filled(Img()) && CleanOk(Img(), clean)
    }

    ghost predicate Full()
      reads this`bitmap
    {
      forall c :: 0 <= c < |bitmap| ==> bitmap[c]
    }

    ghost function Files(): seq<seq<nat>>
      reads this
    {
      FilesOf(Img())
    }

    ghost function View(): Store
      reads this
    {
      StoreOf(Img(), clean)
    }

    /** An image of n blocks whose first `meta` are in use, with empty inodes. */
    constructor (n: nat, meta: nat, inodes: nat)
      requires 0 < meta <= n
      ensures Valid() && View() == Store(seq(inodes, _ => []), map[])
    {
      start := meta;
      bitmap := seq(n, b => b < meta);
      blocks := seq(n, _ => Zeros());
      addrs := seq(inodes, _ => seq(13, _ => 0));
      sizes := seq(inodes, _ => 0);
      clean, owner := map[], map[];
      new;
      forall b: nat ensures BlockOk(Img(), b) && Marked(Img(), owner, b) {}
      forall i: nat ensures InodeOk(Img(), i) {}
      forall sl: Slot ensures Linked(Img(), owner, sl) {}
      forall i: nat, bn: nat ensures HasBlock(Img(), i, bn) {}
      assert Files() == seq(inodes, _ => []);
    }

    method Bzero(b: nat)
      requires b < |blocks|
      modifies this`blocks
      ensures blocks == old(blocks)[b := Zeros()]
    {
      blocks := blocks[b := Zeros()];
    }

    /** The lowest clear bit, set and its block zeroed; all bits set is the panic. */
    method Balloc() returns (ok: bool, b: nat)
      requires |blocks| == |bitmap|
      modifies this`bitmap, this`blocks
      ensures ok ==> b < |old(bitmap)| && !old(bitmap)[b] && (forall c :: 0 <= c < b ==> old(bitmap)[c])
      ensures ok ==> Img() == Claim(old(Img()), b)
      ensures !ok ==> Full() && Img() == old(Img())
    {
      var base := 0;
      while base < |bitmap|
        invariant Img() == old(Img())
        invariant forall c :: 0 <= c < base && c < |bitmap| ==> bitmap[c]
        decreases |bitmap| - base
      {
        var bi := 0;
        while bi < 8192 && base + bi < |bitmap|
          invariant bi <= 8192 && Img() == old(Img())
          invariant forall c :: 0 <= c < base + bi && c < |bitmap| ==> bitmap[c]
        {
          if !bitmap[base + bi] {
            bitmap := bitmap[base + bi := true];
            Bzero(base + bi);
            return true, base + bi;
          }
          bi := bi + 1;
        }
        base := base + 8192;
      }
      return false, 0;
    }

    /** Clears a bit; a clear bit is the panic. */
    method Bfree(b: nat) returns (ok: bool)
      requires b < |bitmap|
      modifies this`bitmap
      ensures ok == old(bitmap)[b]
      ensures bitmap == if ok then old(bitmap)[b := false] else old(bitmap)
    {
      if !bitmap[b] { return false; }
      bitmap := bitmap[b := false];
      return true;
    }

    /** A fresh block for an empty slot. */
    method AllocFor(sl: Slot) returns (ok: bool, b: nat)
      requires Tree(Img(), owner) && Real(Img(), sl) && AddrOf(Img(), sl) == 0
      requires sl.Entry? ==> AddrOf(Img(), Indirect(sl.i)) != 0
      modifies this`bitmap, this`blocks, this`addrs, this`owner
      ensures Tree(Img(), owner) && |addrs| == |old(addrs)|
      ensures forall i: nat, k: nat :: SameByte(old(Img()), Img(), i, k)
      ensures forall x: Slot :: Kept(old(Img()), Img(), x)
      ensures ok ==> b != 0 && AddrOf(Img(), sl) == b
      ensures !ok ==> Full()
    {
      ghost var s, o := Img(), owner;
      ok, b := Balloc();
      if !ok { return; }
      assert CanAttach(s, o, sl, b) && Marked(s, o, 0);
      AttachTree(s, o, sl, b);
      match sl {
        case Direct(i, k) => StoreAddr(i, k, b);
        case Indirect(i) => StoreAddr(i, 12, b);
        case Entry(i, k) =>
          PointerBlock(s, o, i);
          var a := addrs[i][12];
          blocks := blocks[a := SetWord(blocks[a], k, b)];
      }
      owner := owner[b := sl];
      assert Img() == Attach(s, sl, b);
      AttachAddr(s, o, sl, b, sl);
      forall i: nat, k: nat ensures SameByte(s, Img(), i, k) { AttachByte(s, o, sl, b, i, k); }
      forall x: Slot ensures Kept(s, Img(), x) { AttachAddr(s, o, sl, b, x); }
    }

    method StoreAddr(i: nat, k: nat, v: nat)
      requires i < |addrs| && k < |addrs[i]|
      modifies this`addrs
      ensures Img() == SetAddr(old(Img()), i, k, v)
    {
      var row: seq<nat> := addrs[i][k := v];
      addrs := addrs[i := row];
    }

    /** The block number of block bn of an inode, allocated if there is none. */
    method Bmap(ino: nat, bn: nat) returns (ok: bool, addr: nat)
      requires Tree(Img(), owner) && ino < |addrs|
      modifies this`bitmap, this`blocks, this`addrs, this`owner
      ensures Tree(Img(), owner) && |addrs| == |old(addrs)|
      ensures forall i: nat, k: nat :: SameByte(old(Img()), Img(), i, k)
      ensures forall x: Slot :: Kept(old(Img()), Img(), x)
      ensures ok ==> addr != 0 && addr == AddrOf(Img(), SlotFor(ino, bn))
      ensures !ok ==> bn >= MAXFILE || Full()
      ensures AddrOf(old(Img()), SlotFor(ino, bn)) != 0 ==> ok && Img() == old(Img()) && owner == old(owner)
    {
      assert InodeOk(Img(), ino);
      if bn < 12 {
        addr := addrs[ino][bn];
        ok := true;
        if addr == 0 {
          ok, addr := AllocFor(Direct(ino, bn));
        }
        return;
      }
      if bn - 12 < 256 {
        addr := addrs[ino][12];
        if addr == 0 {
          ok, addr := AllocFor(Indirect(ino));
          if !ok { return; }
        }
        ghost var s := Img();
        PointerBlock(s, owner, ino);
        addr := Word(blocks[addr], bn - 12);
        ok := true;
        if addr == 0 {
          ok, addr := AllocFor(Entry(ino, bn - 12));
          forall i: nat, k: nat ensures SameByte(old(Img()), Img(), i, k) {
            assert SameByte(old(Img()), s, i, k) && SameByte(s, Img(), i, k);
          }
          forall x: Slot ensures Kept(old(Img()), Img(), x) {
            assert Kept(old(Img()), s, x) && Kept(s, Img(), x);
          }
        }
        return;
      }
      return false, 0;
    }

    /** One turn of the loop of writei: the block at pos is found and given the bytes. */
    method WriteTurn(ino: nat, pos: nat, bytes: seq<nat>) returns (ok: bool, was: Block)
      requires Tree(Img(), owner) && ino < |addrs| && |bytes| <= 1024 - pos % 1024 && pos < MAXFILE * BSIZE
      modifies this`bitmap, this`blocks, this`addrs, this`owner
      ensures Tree(Img(), owner)
      ensures Progress(old(Img()), Img(), ino, pos, if ok then bytes else [])
      ensures ok ==> WasAt(old(Img()), ino, pos / 1024, was) && AddrOf(Img(), SlotFor(ino, pos / 1024)) != 0
      ensures !ok ==> Full()
    {
      ghost var s := Img();
      var addr;
      ok, addr := Bmap(ino, pos / 1024);
      was := [];
      if !ok {
        forall i: nat, k: nat ensures Altered(s, Img(), ino, pos, [], i, k) { assert SameByte(s, Img(), i, k); }
        return;
      }
      ghost var t := Img();
      PatchTree(t, owner, ino, pos / 1024, pos % 1024, bytes);
      was := blocks[addr];
      WasBlock(t, ino, pos / 1024, addr);
      WasSame(s, t, ino, pos / 1024, was);
      PatchAddr(t, owner, ino, pos / 1024, pos % 1024, bytes, SlotFor(ino, pos / 1024));
      var b: Block := blocks[addr][..pos % 1024] + bytes + blocks[addr][pos % 1024 + |bytes|..];
      blocks := blocks[addr := b];
      assert Img() == Patch(t, addr, pos % 1024, bytes);
      forall i: nat, k: nat ensures Altered(s, Img(), ino, pos, bytes, i, k) {
        assert SameByte(s, t, i, k);
        PatchByte(t, owner, ino, pos / 1024, pos % 1024, bytes, i, k);
      }
      forall x: Slot ensures Kept(s, Img(), x) {
        assert Kept(s, t, x);
        PatchAddr(t, owner, ino, pos / 1024, pos % 1024, bytes, x);
      }
      forall bn: nat ensures Covered(Img(), ino, pos, |bytes|, bn) {
        PatchAddr(t, owner, ino, pos / 1024, pos % 1024, bytes, SlotFor(ino, bn));
      }
    }

    /** The turn of writei whose copy from the user stops short: the bytes stay in a buffer
        that is not logged. */
    method WriteTorn(ino: nat, off: nat, src: seq<nat>, avail: nat, tot: nat, ghost s: Image) returns (ok: bool, was: Block)
      requires Tree(Img(), owner) && CleanOk(Img(), clean) && ino < |addrs| && tot <= avail < |src| && off + |src| <= MAXFILE * BSIZE
      requires avail < tot + (1024 - (off + tot) % 1024) && (tot == 0 || (off + tot) % 1024 == 0)
      requires Progress(s, Img(), ino, off, src[..tot])
      modifies this`bitmap, this`blocks, this`addrs, this`owner, this`clean
      ensures Tree(Img(), owner) && CleanOk(Img(), clean)
      ensures ok ==> tot == Counted(off, |src|, avail)
      ensures Progress(s, Img(), ino, off, src[..if ok then avail else tot])
      ensures ok ==> WasAt(old(Img()), ino, (off + tot) / 1024, was) && clean == AddTorn(old(clean), Spot(ino, (off + tot) / 1024), was)
      ensures !ok ==> Full()
    {
      ghost var t := Img();
      ok, was := WriteTurn(ino, off + tot, src[tot..avail]);
      if !ok { assert src[tot..tot + 0] == []; }
      ProgressStep(s, t, Img(), ino, off, tot, if ok then avail - tot else 0, src);
      CleanKept(t, Img(), clean, clean);
      if ok {
        var sp := Spot(ino, (off + tot) / 1024);
        ghost var before := clean;
        if sp !in clean { clean := clean[sp := was]; }
        forall x: Spot ensures CleanAt(Img(), clean, x) { assert CleanAt(Img(), before, x); }
        BlockStart(off, |src|, avail, tot);
      }
    }

    /** The next len bytes of src, all in one block, which is logged; s is the image before
        the loop. */
    method WriteNext(ino: nat, off: nat, src: seq<nat>, tot: nat, len: nat, ghost s: Image) returns (ok: bool)
      requires Tree(Img(), owner) && CleanOk(Img(), clean) && ino < |addrs| && tot + len <= |src| && tot < |src| && off + |src| <= MAXFILE * BSIZE
      requires len <= 1024 - (off + tot) % 1024 && Progress(s, Img(), ino, off, src[..tot])
      modifies this`bitmap, this`blocks, this`addrs, this`owner, this`clean
      ensures Tree(Img(), owner) && CleanOk(Img(), clean) && |addrs| == |old(addrs)|
      ensures Progress(s, Img(), ino, off, src[..if ok then tot + len else tot])
      ensures ok ==> clean == old(clean) - {Spot(ino, (off + tot) / 1024)}
      ensures !ok ==> Full()
    {
      ghost var t := Img();
      var was;
      ok, was := WriteTurn(ino, off + tot, src[tot..tot + len]);
      if !ok { assert src[tot..tot + 0] == []; }
      ProgressStep(s, t, Img(), ino, off, tot, if ok then len else 0, src);
      CleanKept(t, Img(), clean, if ok then clean - {Spot(ino, (off + tot) / 1024)} else clean);
      if ok { clean := clean - {Spot(ino, (off + tot) / 1024)}; }
    }

    /** tot bytes are written and their blocks logged; the loop began with image s and entries c. */
    ghost predicate Writing(s: Image, c: map<Spot, Block>, ino: nat, off: nat, src: seq<nat>, tot: nat)
      reads this
    {
      && Tree(Img(), owner) && CleanOk(Img(), clean) && ino < |addrs| && tot <= |src| && off + |src| <= MAXFILE * BSIZE
      && (tot == 0 || tot == |src| || (off + tot) % 1024 == 0)
      && Progress(s, Img(), ino, off, src[..tot]) && clean == Unlogged(c, ino, off, tot)
    }

    /** The last turn, whose copy from the user stops short. */
    method WriteLast(ino: nat, off: nat, src: seq<nat>, avail: nat, tot: nat, ghost s: Image, ghost c: map<Spot, Block>)
      returns (ok: bool, was: Block)
      requires Writing(s, c, ino, off, src, tot) && tot <= avail < tot + Chunk(off + tot, |src| - tot)
      modifies this`bitmap, this`blocks, this`addrs, this`owner, this`clean
      ensures Tree(Img(), owner) && CleanOk(Img(), clean) && Progress(s, Img(), ino, off, src[..if ok then avail else tot])
      ensures if ok then tot == Counted(off, |src|, avail) && Tears(s, old(Img()), c, clean, ino, off, src, avail, was) else Full()
    {
      ok, was := WriteTorn(ino, off, src, avail, tot, s);
    }

    /** A turn of the loop that can read its bytes. */
    method WriteOn(ino: nat, off: nat, src: seq<nat>, tot: nat, m: nat, ghost s: Image, ghost c: map<Spot, Block>) returns (ok: bool)
      requires Writing(s, c, ino, off, src, tot) && tot < |src| && m == Chunk(off + tot, |src| - tot)
      modifies this`bitmap, this`blocks, this`addrs, this`owner, this`clean
      ensures if ok then Writing(s, c, ino, off, src, tot + m)
              else Tree(Img(), owner) && CleanOk(Img(), clean) && Full() && Progress(s, Img(), ino, off, src[..tot])
    {
      ok := WriteNext(ino, off, src, tot, m, s);
      UnloggedOn(c, ino, off, tot, m);
      ChunkEnds(off + tot, |src| - tot);
    }

    /** The loop of writei; tot is where it stops.  t is the image before a torn turn, and was
        the bytes the torn block had. */
    method WriteLoop(ino: nat, off: nat, src: seq<nat>, avail: nat) returns (ok: bool, tot: nat, ghost t: Image, ghost was: Block)
      requires Tree(Img(), owner) && CleanOk(Img(), clean) && ino < |addrs| && avail <= |src| && off + |src| <= MAXFILE * BSIZE
      modifies this`bitmap, this`blocks, this`addrs, this`owner, this`clean
      ensures Tree(Img(), owner) && CleanOk(Img(), clean)
      ensures tot <= |src| && (ok ==> tot == Counted(off, |src|, avail))
      ensures Progress(old(Img()), Img(), ino, off, src[..if ok then avail else tot])
      ensures ok ==> Tears(old(Img()), t, old(clean), clean, ino, off, src, avail, was)
      ensures !ok ==> Full()
    {
      ghost var s, c := Img(), clean;
      tot, t, was := 0, s, [];
      forall i: nat, k: nat ensures Altered(s, s, ino, off, src[..0], i, k) {}
      assert clean == Unlogged(clean, ino, off, 0);
      while tot < |src|
        invariant tot <= avail && Writing(s, c, ino, off, src, tot)
      {
        var m := Chunk(off + tot, |src| - tot);
        if avail < tot + m {
          t := Img();
          var bytes;
          ok, bytes := WriteLast(ino, off, src, avail, tot, s, c);
          was := bytes;
          return;
        }
        ok := WriteOn(ino, off, src, tot, m, s, c);
        if !ok { return; }
        tot := tot + m;
      }
      ok := true;
    }

    method Writei(ino: nat, off: nat, src: seq<nat>, avail: nat) returns (r: Written)
      requires Valid() && ino < |sizes| && avail <= |src| && off < WORD32 && |src| < WORD32
      modifies this
      ensures Valid() && |sizes| == |old(sizes)|
      ensures r.Refused? <==> WriteRefused(old(sizes[ino]), off, |src|)
      ensures r.Refused? <==> off > old(sizes[ino]) || off + |src| > 268 * 1024
      ensures r.Done? && avail == |src| ==> r.tot == |src| && (off == old(sizes[ino]) ==> Files()[ino] == old(Files()[ino]) + src)
      ensures r.Refused? ==> Img() == old(Img()) && owner == old(owner) && clean == old(clean)
      ensures r.Done? ==> r.tot == Counted(off, |src|, avail)
      ensures r.Done? ==> View() == WriteStore(old(View()), ino, off, src, avail)
      ensures r.Panicked? ==> Full() && r.tot <= |src|
      ensures r.Panicked? ==> Files() == old(Files())[ino := Overwrite(old(Files())[ino], off, src, r.tot, old(sizes[ino]))]
    {
      RefusedLaw(sizes[ino], off, |src|);
      if off > sizes[ino] || (off + |src|) % WORD32 < off { return Refused; }
      if (off + |src|) % WORD32 > MAXFILE * BSIZE { return Refused; }
      NoWrap(off, |src|);
      Append(Files()[ino], src);
      r := WriteBytes(ino, off, src, avail);
    }

    /** writei after its tests. */
    method WriteBytes(ino: nat, off: nat, src: seq<nat>, avail: nat) returns (r: Written)
      requires Valid() && ino < |sizes| && avail <= |src| && off <= sizes[ino] && off + |src| <= MAXFILE * BSIZE
      modifies this
      ensures Valid() && |sizes| == |old(sizes)| && !r.Refused?
      ensures r.Done? ==> r.tot == Counted(off, |src|, avail)
      ensures r.Done? ==> View() == WriteStore(old(View()), ino, off, src, avail)
      ensures r.Panicked? ==> Full() && r.tot <= |src|
      ensures r.Panicked? ==> Files() == old(Files())[ino := Overwrite(old(Files())[ino], off, src, r.tot, old(sizes[ino]))]
    {
      ghost var s, before := Img(), clean;
      assert InodeOk(s, ino);
      var ok, tot, t0, was := WriteLoop(ino, off, src, avail);
      ghost var t := Img();
      if !ok {
        TornFile(s, t, ino, off, src, tot);
        return Panicked(tot);
      }
      WriteResult(s, t0, t, owner, before, clean, ino, off, src, avail, was);
      var size := sizes[ino];
      if off + tot > size { size := off + tot; }
      sizes := sizes[ino := size];
      return Done(tot);
    }

    /** One turn of the loop of readi: m bytes that lie in the block at pos. */
    method ReadTurn(ino: nat, pos: nat, m: nat) returns (bytes: seq<nat>)
      requires Valid() && ino < |sizes| && pos < sizes[ino] && pos + m <= sizes[ino] && m <= 1024 - pos % 1024
      modifies this`bitmap, this`blocks, this`addrs, this`owner
      ensures Img() == old(Img()) && owner == old(owner) && bytes == Content(Img(), ino)[pos..pos + m]
    {
      assert HasBlock(Img(), ino, pos / 1024);
      var ok, addr := Bmap(ino, pos / 1024);
      DataBlock(Img(), owner, SlotFor(ino, pos / 1024));
      ReadChunk(Img(), ino, pos, m, addr);
      bytes := blocks[addr][pos % 1024..pos % 1024 + m];
    }

    /** readi; avail is how many bytes of the destination can be written. */
    method Readi(ino: nat, off: nat, n: nat, avail: nat) returns (r: Delivered)
      requires Valid() && ino < |sizes| && off < WORD32 && n < WORD32
      modifies this`bitmap, this`blocks, this`addrs, this`owner
      ensures Img() == old(Img()) && owner == old(owner)
      ensures var out := Slice(old(Files())[ino], off, n); r == if avail < |out| then Fault else Bytes(out)
      ensures r.Bytes? ==> Stretch(old(Files()[ino]), off, n, r.out)
    {
      ghost var all := Files()[ino];
      SliceLaw(all, off, n);
      r := ReadBytes(ino, off, n, avail);
    }

    /** readi itself. */
    method ReadBytes(ino: nat, off: nat, n: nat, avail: nat) returns (r: Delivered)
      requires Valid() && ino < |sizes| && off < WORD32 && n < WORD32
      modifies this`bitmap, this`blocks, this`addrs, this`owner
      ensures Img() == old(Img()) && owner == old(owner)
      ensures var out := Slice(old(Files())[ino], off, n); r == if avail < |out| then Fault else Bytes(out)
    {
      if off > sizes[ino] || (off + n) % WORD32 < off { return Bytes([]); }
      var len := if off + n > sizes[ino] then sizes[ino] - off else n;
      ghost var file := Content(Img(), ino);
      var tot, out := 0, [];
      while tot < len
        invariant tot <= len && tot <= avail && |out| == tot
        invariant Img() == old(Img()) && owner == old(owner)
        invariant out == file[off..off + tot]
      {
        var pos := off + tot;
        var m := if len - tot < 1024 - pos % 1024 then len - tot else 1024 - pos % 1024;
        if avail < tot + m { return Fault; }
        var chunk := ReadTurn(ino, pos, m);
        out := out + chunk;
        tot := tot + m;
      }
      return Bytes(out);
    }

    /** The first loop of itrunc. */
    method FreeDirect(ino: nat)
      requires Tree(Img(), owner) && ino < |sizes|
      modifies this`bitmap, this`addrs, this`owner
      ensures Tree(Img(), owner) && |addrs| == |old(addrs)|
      ensures forall sl: Slot :: Cut(old(Img()), Img(), ino, 12, sl)
      ensures forall i: nat, k: nat :: OtherByte(old(Img()), Img(), ino, i, k)
    {
      ghost var s := Img();
      var k := 0;
      while k < 12
        invariant k <= 12
        invariant Tree(Img(), owner) && |addrs| == |old(addrs)|
        invariant forall sl: Slot :: Cut(s, Img(), ino, k, sl)
        invariant forall i: nat, x: nat :: OtherByte(s, Img(), ino, i, x)
      {
        ghost var t := Img();
        assert InodeOk(t, ino);
        if addrs[ino][k] != 0 {
          ReleaseDirect(t, owner, ino, k);
          var a := addrs[ino][k];
          var ok := Bfree(a);
          assert ok;
          StoreAddr(ino, k, 0);
          owner := owner - {a};
          assert Img() == Release(t, ino, k);
        }
        ghost var next := k + 1;
        forall sl: Slot ensures Cut(s, Img(), ino, next, sl) {
          assert Cut(s, t, ino, k, sl);
          ReleaseAddr(t, Img(), ino, k, sl);
        }
        forall i: nat, x: nat ensures OtherByte(s, Img(), ino, i, x) {
          assert OtherByte(s, t, ino, i, x);
          ReleaseAddr(t, Img(), ino, k, SlotFor(i, x / 1024));
        }
        k := k + 1;
      }
    }

    /** The rest of itrunc: the blocks named in the indirect block, then that block. */
    method FreeIndirect(ino: nat)
      requires Tree(Img(), owner) && ino < |sizes|
      modifies this`bitmap, this`addrs, this`owner
      ensures Tree(Img(), owner) && |addrs| == |old(addrs)|
      ensures forall sl: Slot :: AddrOf(Img(), sl) == if sl.i == ino && !sl.Direct? then 0 else AddrOf(old(Img()), sl)
      ensures forall i: nat, k: nat :: OtherByte(old(Img()), Img(), ino, i, k)
    {
      ghost var s := Img();
      assert InodeOk(s, ino);
      var a := addrs[ino][12];
      if a == 0 { return; }
      PointerBlock(s, owner, ino);
      StartFreeing(s, owner, ino);
      var j := 0;
      while j < 256
        invariant j <= 256 && addrs == old(addrs)
        invariant Img() == s.(bitmap := bitmap)
        invariant TreeBut(Img(), owner, ino, j)
      {
        var e := Word(blocks[a], j);
        assert e == AddrOf(Img(), Entry(ino, j));
        if e != 0 {
          FreeEntry(Img(), owner, ino, j);
          ghost var t := Img();
          var ok := Bfree(e);
          assert ok;
          owner := owner - {e};
          assert Img() == Clear(t, e);
        } else {
          SkipEntry(Img(), owner, ino, j);
        }
        j := j + 1;
      }
      ghost var t := Img();
      ReleaseIndirect(t, owner, ino);
      var ok := Bfree(a);
      assert ok;
      StoreAddr(ino, 12, 0);
      owner := owner - {a};
      assert Img() == Release(t, ino, 12);
    }

    method Itrunc(ino: nat)
      requires Valid() && ino < |sizes|
      modifies this
      ensures Valid() && |sizes| == |old(sizes)| && Files() == old(Files())[ino := []]
      ensures Torn(sizes, clean) == map sp | sp in old(Torn(sizes, clean)) && sp.i != ino :: old(Torn(sizes, clean))[sp]
      ensures forall sl: Slot :: Emptied(old(Img()), Img(), ino, sl)
    {
      ghost var s := Img();
      FreeDirect(ino);
      ghost var t := Img();
      FreeIndirect(ino);
      ghost var u := Img();
      forall sl: Slot ensures Emptied(s, u, ino, sl) {
        assert Cut(s, t, ino, 12, sl) && (sl.i == ino && !sl.Direct? ==> AddrOf(u, sl) == 0);
      }
      forall i: nat, k: nat ensures OtherByte(s, u, ino, i, k) { assert OtherByte(s, t, ino, i, k) && OtherByte(t, u, ino, i, k); }
      TruncDone(s, u, owner, clean, ino);
      sizes := sizes[ino := 0];
      clean := map sp | sp in clean && sp.i != ino :: clean[sp];
    }

    /** The buffer of block bn of an inode is recycled: bytes that were not logged are gone. */
    method Drop(ino: nat, bn: nat)
      requires Valid() && ino < |sizes|
      modifies this
      ensures Valid() && |sizes| == |old(sizes)|
      ensures View() == StoreStep(old(View()), Op.Drop(ino, bn))
    {
      var sp := Spot(ino, bn);
      assert CleanAt(Img(), clean, sp);
      if sp in clean {
        DropBlock(ino, bn);
      }
    }

    method DropBlock(ino: nat, bn: nat)
      requires Valid() && ino < |sizes| && Spot(ino, bn) in clean
      modifies this
      ensures Valid() && sizes == old(sizes) && clean == old(clean) - {Spot(ino, bn)}
      ensures |old(clean)[Spot(ino, bn)]| == 1024
      ensures Files() == old(Files())[ino := Revert(old(Files())[ino], bn, old(clean)[Spot(ino, bn)][..Visible(sizes[ino], bn)])]
    {
      var sp := Spot(ino, bn);
      assert CleanAt(Img(), clean, sp);
      var ok, addr := Bmap(ino, bn);
      ghost var s := Img();
      var was := clean[sp];
      PatchTree(s, owner, ino, bn, 0, was);
      blocks := blocks[addr := was];
      assert was == s.blocks[addr][..0] + was + s.blocks[addr][1024..];
      assert Img() == Patch(s, addr, 0, was);
      clean := clean - {sp};
      DroppedImage(s, owner, ino, bn, was, old(clean), clean);
    }

    /** One call. */
    method Step(op: Op) returns (r: Reply)
      requires Valid() && OpOk(|sizes|, op)
      modifies this
      ensures Valid() && |sizes| == |old(sizes)|
      ensures Panics(r) ==> Full() && op.Write?
      ensures !Panics(r) ==> r == FileReply(old(Files()), op) && View() == StoreStep(old(View()), op)
    {
      match op
      case Write(i, off, src, avail) =>
        var w := Writei(i, off, src, avail);
        r := Wrote(w);
      case Read(i, off, n, avail) =>
        var d := Readi(i, off, n, avail);
        r := Gave(d);
      case Trunc(i) =>
        Itrunc(i);
        r := Truncated;
      case Drop(i, bn) =>
        this.Drop(i, bn);
        r := Dropped;
    }

    /** Any run of calls and recycled buffers, up to a full disk, gives the replies of byte
        strings and does to the files what it does to those. */
    method Run(ops: seq<Op>) returns (rs: seq<Reply>, ghost trail: seq<Store>)
      requires Valid() && forall k :: 0 <= k < |ops| ==> OpOk(|sizes|, ops[k])
      modifies this
      ensures Valid() && |sizes| == |old(sizes)| && History(ops, rs, trail) && trail[0] == old(View()) && TornOk(trail[0].torn)
      ensures |rs| == |ops| ==> View() == trail[|rs|]
      ensures |rs| < |ops| ==> Full() && ops[|rs|].Write?
    {
      rs, trail := [], [View()];
      while |rs| < |ops|
        invariant |rs| <= |ops| && Valid() && |sizes| == |old(sizes)|
        invariant History(ops, rs, trail) && trail[0] == old(View()) && trail[|rs|] == View()
      {
        ghost var st := View();
        var r := Step(ops[|rs|]);
        if Panics(r) { return; }
        HistoryOn(ops, rs, trail, st, r, View());
        rs, trail := rs + [r], trail + [View()];
      }
    }
  }
}
