/**
 Directory records of ext2 (struct ext2_dir_entry_2) as the bytes of one block:
 four bytes of inode number, two of record length, one of name length, one of
 file type, and the name, all little-endian.
 */
module DirRecords {

  const BS: nat := 1024

  type Name = seq<nat>
  type Block = seq<nat>

  /** A record: its place, its length, the inode it names (0 when unused), the file type and the
      name. */
  datatype Rec = Rec(off: nat, len: nat, ino: nat, kind: nat, name: Name)

  function Inode(b: Block, o: nat): nat
    requires o + 8 <= |b|
  {
    b[o] + 0x100 * b[o + 1] + 0x1_0000 * b[o + 2] + 0x100_0000 * b[o + 3]
  }

  function RecLen(b: Block, o: nat): nat
    requires o + 8 <= |b|
  {
    b[o + 4] + 0x100 * b[o + 5]
  }

  function NameLen(b: Block, o: nat): nat
    requires o + 8 <= |b|
  {
    b[o + 6]
  }

  /** EXT2_DIR_REC_LEN: header and name, rounded up to four bytes. */
  function Need(n: nat): (r: nat)
    ensures n + 8 <= r < n + 12 && r % 4 == 0
  {
    (n + 11) / 4 * 4
  }

  /** The record that the bytes at o encode. */
  function Decode(b: Block, o: nat): Rec
    requires o + 8 <= |b|
  {
    var end := o + 8 + NameLen(b, o);
    Rec(o, RecLen(b, o), Inode(b, o), b[o + 7], if end <= |b| then b[o + 8..end] else [])
  }

  ghost predicate RecAt(b: Block, r: Rec) {
    r.off + 8 + |r.name| <= |b| && NameLen(b, r.off) == |r.name| && Decode(b, r.off) == r
  }

  /** struct ext2_dir_entry_2, byte by byte. */
  lemma Layout(b: Block, r: Rec)
    ensures RecAt(b, r) <==>
            && r.off + 8 + |r.name| <= |b|
            && b[r.off] + 256 * b[r.off + 1] + 65536 * b[r.off + 2] + 16777216 * b[r.off + 3] == r.ino
            && b[r.off + 4] + 256 * b[r.off + 5] == r.len && b[r.off + 6] == |r.name| && b[r.off + 7] == r.kind
            && forall j :: 0 <= j < |r.name| ==> b[r.off + 8 + j] == r.name[j]
  {
    if r.off + 8 + |r.name| <= |b| && b[r.off + 6] == |r.name| {
      var cut := b[r.off + 8..r.off + 8 + |r.name|];
      assert cut == r.name <==> forall j :: 0 <= j < |r.name| ==> cut[j] == r.name[j];
    }
  }

  /** Where record i ends. */
  function EndOf(recs: seq<Rec>, i: nat): nat {
    if i + 1 < |recs| then recs[i + 1].off else BS
  }

  /** Record i has room for its name and ends where the next one starts. */
  ghost predicate LaidAt(recs: seq<Rec>, i: nat) {
    i < |recs| ==> 8 + |recs[i].name| <= recs[i].len && recs[i].off + recs[i].len == EndOf(recs, i)
  }

  ghost predicate Laid(recs: seq<Rec>) {
    recs != [] && recs[0].off == 0 && forall i: nat :: LaidAt(recs, i)
  }

  ghost predicate HeldAt(b: Block, recs: seq<Rec>, i: nat) {
    i < |recs| ==> RecAt(b, recs[i])
  }

  /** The records tile the block exactly. */
  ghost predicate Tiled(b: Block, recs: seq<Rec>) {
    |b| == BS && Laid(recs) && forall i: nat :: HeldAt(b, recs, i)
  }

  lemma {:induction false} OffsetsGrow(recs: seq<Rec>, i: nat, j: nat)
    requires Laid(recs) && i < j < |recs|
    ensures recs[i].off + recs[i].len <= recs[j].off && recs[j].off + recs[j].len <= BS
    decreases |recs| - j, j - i
  {
    assert LaidAt(recs, i) && LaidAt(recs, j);
    if i + 1 < j {
      OffsetsGrow(recs, i + 1, j);
      assert LaidAt(recs, i + 1);
    }
    if j + 1 < |recs| {
      OffsetsGrow(recs, j, j + 1);
    }
  }

  lemma RecEnds(recs: seq<Rec>, i: nat)
    requires Laid(recs) && i < |recs|
    ensures recs[i].off + recs[i].len <= BS && recs[i].off + 8 + |recs[i].name| <= BS && recs[i].len >= 8
  {
    assert LaidAt(recs, i);
    if i + 1 < |recs| {
      OffsetsGrow(recs, i, i + 1);
    }
  }

  /** Blocks that agree on the bytes of a record hold the same record. */
  lemma SameBytes(b: Block, c: Block, r: Rec)
    requires RecAt(b, r) && |c| == |b|
    requires forall j :: r.off <= j < r.off + 8 + |r.name| ==> c[j] == b[j]
    ensures RecAt(c, r)
  {
  }

  // ------------------------------------------------- writing fields

  function SetRecLen(b: Block, o: nat, v: nat): (c: Block)
    requires o + 8 <= |b|
    ensures |c| == |b|
  {
    b[o + 4 := v % 0x100][o + 5 := v / 0x100]
  }

  function SetInode(b: Block, o: nat, v: nat): (c: Block)
    requires o + 8 <= |b|
    ensures |c| == |b|
  {
    b[o := v % 0x100][o + 1 := v / 0x100 % 0x100][o + 2 := v / 0x1_0000 % 0x100][o + 3 := v / 0x100_0000]
  }

  function SetName(b: Block, o: nat, name: Name, kind: nat): (c: Block)
    requires o + 8 + |name| <= |b|
    ensures |c| == |b|
  {
    b[..o + 6] + [|name|, kind] + name + b[o + 8 + |name|..]
  }

  /** Record r lies clear of bytes lo..hi. */
  predicate Clear(r: Rec, lo: nat, hi: nat) {
    r.off + 8 + |r.name| <= lo || hi <= r.off
  }

  /** Changing the length of a record changes that record only. */
  lemma SetRecLenRec(b: Block, r: Rec, v: nat)
    requires RecAt(b, r)
    ensures RecAt(SetRecLen(b, r.off, v), r.(len := v))
  {
    var c := SetRecLen(b, r.off, v);
    assert c[r.off + 8..r.off + 8 + |r.name|] == b[r.off + 8..r.off + 8 + |r.name|];
  }

  lemma SetRecLenOther(b: Block, o: nat, v: nat, r: Rec)
    requires RecAt(b, r) && o + 8 <= |b| && Clear(r, o + 4, o + 6)
    ensures RecAt(SetRecLen(b, o, v), r)
  {
    SameBytes(b, SetRecLen(b, o, v), r);
  }

  lemma SetInodeReads(b: Block, o: nat, v: nat)
    requires o + 8 <= |b|
    ensures Inode(SetInode(b, o, v), o) == v
  {
    assert v == v % 0x100 + 0x100 * (v / 0x100);
    assert v / 0x100 == v / 0x100 % 0x100 + 0x100 * (v / 0x1_0000);
    assert v / 0x1_0000 == v / 0x1_0000 % 0x100 + 0x100 * (v / 0x100_0000);
  }

  lemma SetInodeRec(b: Block, r: Rec, v: nat)
    requires RecAt(b, r)
    ensures RecAt(SetInode(b, r.off, v), r.(ino := v))
  {
    var c := SetInode(b, r.off, v);
    SetInodeReads(b, r.off, v);
    assert c[r.off + 8..r.off + 8 + |r.name|] == b[r.off + 8..r.off + 8 + |r.name|];
  }

  lemma SetInodeOther(b: Block, o: nat, v: nat, r: Rec)
    requires RecAt(b, r) && o + 8 <= |b| && Clear(r, o, o + 4)
    ensures RecAt(SetInode(b, o, v), r)
  {
    SameBytes(b, SetInode(b, o, v), r);
  }

  /** The last lines of dirlink: name, inode number and type go into the record at o. */
  function Fill(b: Block, o: nat, ino: nat, name: Name, kind: nat): (c: Block)
    requires o + 8 + |name| <= |b|
    ensures |c| == |b|
  {
    SetInode(SetName(b, o, name, kind), o, ino)
  }

  lemma FillRec(b: Block, o: nat, ino: nat, name: Name, kind: nat)
    requires o + 8 + |name| <= |b|
    ensures RecAt(Fill(b, o, ino, name, kind), Rec(o, RecLen(b, o), ino, kind, name))
  {
    var c := SetName(b, o, name, kind);
    assert c[o + 8..o + 8 + |name|] == name;
    SetInodeRec(c, Rec(o, RecLen(b, o), Inode(c, o), kind, name), ino);
  }

  lemma FillOther(b: Block, o: nat, ino: nat, name: Name, kind: nat, r: Rec)
    requires RecAt(b, r) && o + 8 + |name| <= |b| && Clear(r, o, o + 8 + |name|)
    ensures RecAt(Fill(b, o, ino, name, kind), r)
  {
    var c := SetName(b, o, name, kind);
    SameBytes(b, c, r);
    SetInodeOther(c, o, ino, r);
  }

  // ------------------------------------------------- the field writes, one at a time

  /** A record clear of bytes lo..hi of b is still there in c. */
  ghost predicate KeptAt(b: Block, c: Block, lo: nat, hi: nat, r: Rec) {
    RecAt(b, r) && Clear(r, lo, hi) ==> RecAt(c, r)
  }

  ghost predicate Keeps(b: Block, c: Block, lo: nat, hi: nat) {
    |c| == |b| && forall r :: KeptAt(b, c, lo, hi, r)
  }

  /** A record at o of b has length v in c. */
  ghost predicate RelenAt(b: Block, c: Block, o: nat, v: nat, r: Rec) {
    RecAt(b, r) && r.off == o ==> RecAt(c, r.(len := v))
  }

  /** A record at o of b has inode number v in c. */
  ghost predicate RenumberAt(b: Block, c: Block, o: nat, v: nat, r: Rec) {
    RecAt(b, r) && r.off == o ==> RecAt(c, r.(ino := v))
  }

  method PutRecLen(b: Block, o: nat, v: nat) returns (c: Block)
    requires o + 8 <= |b|
    ensures Keeps(b, c, o + 4, o + 6) && forall r :: RelenAt(b, c, o, v, r)
    ensures RecLen(c, o) == v
    ensures forall p: nat :: p + 8 <= |b| && (p + 2 <= o || o + 2 <= p) ==> RecLen(c, p) == RecLen(b, p)
  {
    c := SetRecLen(b, o, v);
    var lo, hi := o + 4, o + 6;
    forall r ensures KeptAt(b, c, lo, hi, r) && RelenAt(b, c, o, v, r) {
      if RecAt(b, r) && Clear(r, lo, hi) { SetRecLenOther(b, o, v, r); }
      if RecAt(b, r) && r.off == o { SetRecLenRec(b, r, v); }
    }
  }

  method PutInode(b: Block, o: nat, v: nat) returns (c: Block)
    requires o + 8 <= |b|
    ensures Keeps(b, c, o, o + 4) && RecLen(c, o) == RecLen(b, o)
    ensures forall r :: RenumberAt(b, c, o, v, r)
  {
    c := SetInode(b, o, v);
    var hi := o + 4;
    forall r ensures KeptAt(b, c, o, hi, r) && RenumberAt(b, c, o, v, r) {
      if RecAt(b, r) && Clear(r, o, hi) { SetInodeOther(b, o, v, r); }
      if RecAt(b, r) && r.off == o { SetInodeRec(b, r, v); }
    }
  }

  method PutEntry(b: Block, o: nat, ino: nat, name: Name, kind: nat) returns (c: Block)
    requires o + 8 + |name| <= |b|
    ensures Keeps(b, c, o, o + 8 + |name|) && RecAt(c, Rec(o, RecLen(b, o), ino, kind, name))
  {
    c := Fill(b, o, ino, name, kind);
    FillRec(b, o, ino, name, kind);
    var hi := o + 8 + |name|;
    forall r ensures KeptAt(b, c, o, hi, r) {
      if RecAt(b, r) && Clear(r, o, hi) { FillOther(b, o, ino, name, kind, r); }
    }
  }

  // ------------------------------------------------- linking into a block

  /** Record i is cut to `used` bytes, and the new record takes the rest. */
  function Split(recs: seq<Rec>, i: nat, used: nat, ino: nat, name: Name, kind: nat): seq<Rec>
    requires i < |recs| && used <= recs[i].len
  {
    recs[..i] + [recs[i].(len := used), Rec(recs[i].off + used, recs[i].len - used, ino, kind, name)] + recs[i + 1..]
  }

  /** Splitting gives the new entry the end of a record and leaves the others. */
  lemma SplitLaw(recs: seq<Rec>, i: nat, used: nat, ino: nat, name: Name, kind: nat)
    requires i < |recs| && used <= recs[i].len
    ensures var out := Split(recs, i, used, ino, name, kind);
            && |out| == |recs| + 1 && out[i].off == recs[i].off && out[i].len == used
            && out[i].ino == recs[i].ino && out[i].kind == recs[i].kind && out[i].name == recs[i].name
            && out[i + 1].off == recs[i].off + used && used + out[i + 1].len == recs[i].len
            && out[i + 1].ino == ino && out[i + 1].kind == kind && out[i + 1].name == name
            && (forall j :: 0 <= j < i ==> out[j] == recs[j]) && (forall j :: i < j < |recs| ==> out[j + 1] == recs[j])
  {
  }

  /** The records of a block lie apart. */
  lemma Apart(b: Block, recs: seq<Rec>, i: nat, s: nat)
    requires Tiled(b, recs) && i < |recs| && s < |recs| && s != i
    ensures RecAt(b, recs[s]) && Clear(recs[s], recs[i].off, recs[i].off + recs[i].len)
  {
    assert LaidAt(recs, s) && HeldAt(b, recs, s) && LaidAt(recs, i) && HeldAt(b, recs, i);
    if s < i { OffsetsGrow(recs, s, i); } else { OffsetsGrow(recs, i, s); }
  }

  method SplitRecord(b: Block, ghost recs: seq<Rec>, ghost i: nat, o: nat, len: nat, used: nat,
                     ino: nat, name: Name, kind: nat) returns (c: Block)
    requires Tiled(b, recs) && i < |recs| && o == recs[i].off && len == recs[i].len
    requires 8 + |recs[i].name| <= used && used + 8 + |name| <= len
    ensures Tiled(c, Split(recs, i, used, ino, name, kind))
  {
    RecEnds(recs, i);
    assert LaidAt(recs, i) && HeldAt(b, recs, i);
    var b1 := PutRecLen(b, o + used, len - used);
    var b2 := PutRecLen(b1, o, used);
    assert RelenAt(b1, b2, o, used, recs[i]);
    c := PutEntry(b2, o + used, ino, name, kind);
    SplitCut(b, b1, b2, c, recs[i], used, |name|);
    SplitOthers(b, b1, b2, c, recs, i, used, |name|);
    SplitTiled(c, recs, i, used, ino, name, kind);
  }

  /** The record that is cut keeps its name in the shorter place. */
  lemma SplitCut(b: Block, b1: Block, b2: Block, c: Block, r: Rec, used: nat, n: nat)
    requires RecAt(b, r) && 8 + |r.name| <= used && used + 8 + n <= r.len
    requires Keeps(b, b1, r.off + used + 4, r.off + used + 6) && RelenAt(b1, b2, r.off, used, r)
    requires Keeps(b2, c, r.off + used, r.off + used + 8 + n)
    ensures RecAt(c, r.(len := used))
  {
    assert KeptAt(b, b1, r.off + used + 4, r.off + used + 6, r);
    assert KeptAt(b2, c, r.off + used, r.off + used + 8 + n, r.(len := used));
  }

  /** The other records of the block stay. */
  lemma SplitOthers(b: Block, b1: Block, b2: Block, c: Block, recs: seq<Rec>, i: nat, used: nat, n: nat)
    requires Tiled(b, recs) && i < |recs| && 8 + |recs[i].name| <= used && used + 8 + n <= recs[i].len
    requires Keeps(b, b1, recs[i].off + used + 4, recs[i].off + used + 6) && Keeps(b1, b2, recs[i].off + 4, recs[i].off + 6)
    requires Keeps(b2, c, recs[i].off + used, recs[i].off + used + 8 + n)
    ensures forall s: nat :: s != i ==> HeldAt(c, recs, s)
  {
    var o := recs[i].off;
    forall s: nat | s != i ensures HeldAt(c, recs, s) {
      if s < |recs| {
        Apart(b, recs, i, s);
        assert HeldAt(b, recs, s) && KeptAt(b, b1, o + used + 4, o + used + 6, recs[s]);
        assert KeptAt(b1, b2, o + 4, o + 6, recs[s]) && KeptAt(b2, c, o + used, o + used + 8 + n, recs[s]);
      }
    }
  }

  lemma SplitLaid(recs: seq<Rec>, i: nat, used: nat, ino: nat, name: Name, kind: nat)
    requires Laid(recs) && i < |recs|
    requires 8 + |recs[i].name| <= used && used + 8 + |name| <= recs[i].len
    ensures Laid(Split(recs, i, used, ino, name, kind))
  {
    var out := Split(recs, i, used, ino, name, kind);
    forall j: nat ensures LaidAt(out, j) {
      var s: nat := if j <= i then j else j - 1;
      assert LaidAt(recs, s);
      assert j < i && j + 1 < |recs| ==> out[j + 1].off == recs[j + 1].off;
    }
  }

  lemma SplitTiled(c: Block, recs: seq<Rec>, i: nat, used: nat, ino: nat, name: Name, kind: nat)
    requires Laid(recs) && i < |recs| && |c| == BS
    requires 8 + |recs[i].name| <= used && used + 8 + |name| <= recs[i].len
    requires RecAt(c, recs[i].(len := used)) && RecAt(c, Rec(recs[i].off + used, recs[i].len - used, ino, kind, name))
    requires forall s: nat :: s != i ==> HeldAt(c, recs, s)
    ensures Tiled(c, Split(recs, i, used, ino, name, kind))
  {
    var out := Split(recs, i, used, ino, name, kind);
    SplitLaid(recs, i, used, ino, name, kind);
    forall j: nat ensures HeldAt(c, out, j) {
      if j < |out| && j != i && j != i + 1 {
        var s := if j < i then j else j - 1;
        assert out[j] == recs[s] && HeldAt(c, recs, s);
      }
    }
  }

  /** An unused record takes the new name and keeps its length. */
  method ReuseRecord(b: Block, ghost recs: seq<Rec>, ghost i: nat, o: nat, ino: nat, name: Name, kind: nat)
    returns (c: Block)
    requires Tiled(b, recs) && i < |recs| && o == recs[i].off && recs[i].len >= 8 + |name|
    ensures Tiled(c, recs[i := recs[i].(ino := ino, kind := kind, name := name)])
  {
    RecEnds(recs, i);
    assert LaidAt(recs, i) && HeldAt(b, recs, i);
    c := PutEntry(b, o, ino, name, kind);
    ghost var out := recs[i := recs[i].(ino := ino, kind := kind, name := name)];
    forall j: nat ensures LaidAt(out, j) && HeldAt(c, out, j) {
      assert LaidAt(recs, j) && HeldAt(b, recs, j);
      if j < |recs| && j != i {
        Apart(b, recs, i, j);
        assert KeptAt(b, c, o, o + 8 + |name|, recs[j]);
      }
    }
  }

  /** A fresh block, whatever it contained, becomes one record. */
  method FreshRecord(b: Block, ino: nat, name: Name, kind: nat) returns (c: Block)
    requires |b| == BS && 8 + |name| <= BS
    ensures Tiled(c, [Rec(0, BS, ino, kind, name)])
  {
    var b1 := PutRecLen(b, 0, BS);
    var b2 := PutInode(b1, 0, 0);
    c := PutEntry(b2, 0, ino, name, kind);
    ghost var out := [Rec(0, BS, ino, kind, name)];
    forall j: nat ensures LaidAt(out, j) && HeldAt(c, out, j) {}
  }

  // ------------------------------------------------- unlinking from a block

  /** Record i is swallowed by the one before it; the first record is only marked unused. */
  function Removed(recs: seq<Rec>, i: nat): seq<Rec>
    requires i < |recs|
  {
    if i == 0 then recs[0 := recs[0].(ino := 0)]
    else recs[..i - 1] + [recs[i - 1].(len := recs[i - 1].len + recs[i].len)] + recs[i + 1..]
  }

  /** Removing a record gives its bytes to the one before it; the first one keeps its bytes and
      names no inode. */
  lemma RemovedLaw(recs: seq<Rec>, i: nat)
    requires i < |recs|
    ensures var out := Removed(recs, i);
            if i == 0 then
              |out| == |recs| && out[0].ino == 0 && out[0].len == recs[0].len && forall j :: 0 < j < |recs| ==> out[j] == recs[j]
            else
              && |out| == |recs| - 1 && out[i - 1].len == recs[i - 1].len + recs[i].len && out[i - 1].off == recs[i - 1].off
              && out[i - 1].ino == recs[i - 1].ino && out[i - 1].kind == recs[i - 1].kind && out[i - 1].name == recs[i - 1].name
              && (forall j :: 0 <= j < i - 1 ==> out[j] == recs[j]) && (forall j :: i < j < |recs| ==> out[j - 1] == recs[j])
  {
  }

  /** The record before the one at o, found by walking the block from its start. */
  method RecordBefore(b: Block, ghost recs: seq<Rec>, ghost i: nat, o: nat) returns (pde: nat)
    requires Tiled(b, recs) && i < |recs| && o == recs[i].off
    ensures i > 0 ==> pde == recs[i - 1].off
  {
    var de: nat := 0;
    pde := 0;
    RecEnds(recs, i);
    assert LaidAt(recs, i);
    ghost var k: nat := 0;
    while de < o
      invariant k <= i && de == recs[k].off && (k > 0 ==> pde == recs[k - 1].off)
      decreases i - k
    {
      assert LaidAt(recs, k) && HeldAt(b, recs, k);
      if k < i { OffsetsGrow(recs, k, i); }
      RecEnds(recs, k);
      pde := de;
      de := de + RecLen(b, de);
      k := k + 1;
    }
    RecEnds(recs, k);
    if k < i { OffsetsGrow(recs, k, i); }
  }

  /** ext2_unlink on the record at o: stretch the record before it over it, and clear this one. */
  method RemoveRecord(b: Block, ghost recs: seq<Rec>, ghost i: nat, o: nat) returns (c: Block)
    requires Tiled(b, recs) && i < |recs| && o == recs[i].off
    ensures Tiled(c, Removed(recs, i))
  {
    var pde := RecordBefore(b, recs, i, o);
    if o == 0 {
      FirstRecord(b, recs, i);
      c := ClearFirst(b, recs);
    } else {
      assert LaidAt(recs, i);
      c := Swallow(b, recs, i, pde, o);
    }
  }

  lemma FirstRecord(b: Block, recs: seq<Rec>, i: nat)
    requires Tiled(b, recs) && i < |recs| && recs[i].off == 0
    ensures i == 0
  {
    assert LaidAt(recs, 0) && HeldAt(b, recs, 0);
    if i > 0 { OffsetsGrow(recs, 0, i); }
  }

  /** The first record has none before it: its inode number becomes 0. */
  method ClearFirst(b: Block, ghost recs: seq<Rec>) returns (c: Block)
    requires Tiled(b, recs) && |recs| > 0 && recs[0].off == 0
    ensures Tiled(c, Removed(recs, 0))
  {
    assert LaidAt(recs, 0) && HeldAt(b, recs, 0);
    c := PutInode(b, 0, 0);
    assert RenumberAt(b, c, 0, 0, recs[0]);
    forall s: nat | s != 0 ensures HeldAt(c, recs, s) {
      if s < |recs| {
        Apart(b, recs, 0, s);
        assert KeptAt(b, c, 0, 4, recs[s]);
      }
    }
    RemovedTiled(c, recs, 0);
  }

  /** Any other record becomes the tail of the one before it. */
  method Swallow(b: Block, ghost recs: seq<Rec>, ghost i: nat, pde: nat, o: nat) returns (c: Block)
    requires Tiled(b, recs) && 0 < i < |recs| && pde == recs[i - 1].off && o == recs[i].off
    ensures Tiled(c, Removed(recs, i))
  {
    RecEnds(recs, i);
    assert LaidAt(recs, i) && HeldAt(b, recs, i) && LaidAt(recs, i - 1) && HeldAt(b, recs, i - 1);
    var len := o + RecLen(b, o) - pde;
    assert len == recs[i - 1].len + recs[i].len;
    var b1 := PutRecLen(b, pde, len);
    assert RelenAt(b, b1, pde, len, recs[i - 1]);
    c := PutInode(b1, o, 0);
    Swallowed(b, b1, c, recs, i);
  }

  lemma Swallowed(b: Block, b1: Block, c: Block, recs: seq<Rec>, i: nat)
    requires Tiled(b, recs) && 0 < i < |recs| && |c| == BS
    requires Keeps(b, b1, recs[i - 1].off + 4, recs[i - 1].off + 6) && Keeps(b1, c, recs[i].off, recs[i].off + 4)
    requires RecAt(b1, recs[i - 1].(len := recs[i - 1].len + recs[i].len))
    ensures Tiled(c, Removed(recs, i))
  {
    assert LaidAt(recs, i - 1);
    assert KeptAt(b1, c, recs[i].off, recs[i].off + 4, recs[i - 1].(len := recs[i - 1].len + recs[i].len));
    SwallowOthers(b, b1, c, recs, i);
    RemovedTiled(c, recs, i);
  }

  /** The other records of the block stay. */
  lemma SwallowOthers(b: Block, b1: Block, c: Block, recs: seq<Rec>, i: nat)
    requires Tiled(b, recs) && 0 < i < |recs|
    requires Keeps(b, b1, recs[i - 1].off + 4, recs[i - 1].off + 6) && Keeps(b1, c, recs[i].off, recs[i].off + 4)
    ensures forall s: nat :: s != i && s + 1 != i ==> HeldAt(c, recs, s)
  {
    var pde, o := recs[i - 1].off, recs[i].off;
    assert LaidAt(recs, i) && HeldAt(b, recs, i) && LaidAt(recs, i - 1) && HeldAt(b, recs, i - 1);
    forall s: nat | s != i && s + 1 != i ensures HeldAt(c, recs, s) {
      if s < |recs| {
        Apart(b, recs, i, s);
        Apart(b, recs, i - 1, s);
        assert KeptAt(b, b1, pde + 4, pde + 6, recs[s]) && KeptAt(b1, c, o, o + 4, recs[s]);
      }
    }
  }

  lemma RemovedLaid(recs: seq<Rec>, i: nat)
    requires Laid(recs) && i < |recs|
    ensures Laid(Removed(recs, i))
  {
    var out := Removed(recs, i);
    forall j: nat ensures LaidAt(out, j) {
      var s: nat := if i > 0 && j >= i then j + 1 else j;
      assert LaidAt(recs, s) && LaidAt(recs, i);
    }
  }

  lemma RemovedTiled(c: Block, recs: seq<Rec>, i: nat)
    requires Laid(recs) && i < |recs| && |c| == BS
    requires i == 0 ==> RecAt(c, recs[0].(ino := 0))
    requires i > 0 ==> RecAt(c, recs[i - 1].(len := recs[i - 1].len + recs[i].len))
    requires forall s: nat :: s != i && s + 1 != i ==> HeldAt(c, recs, s)
    ensures Tiled(c, Removed(recs, i))
  {
    var out := Removed(recs, i);
    RemovedLaid(recs, i);
    forall j: nat ensures HeldAt(c, out, j) {
      var s: nat := if i > 0 && j >= i then j + 1 else j;
      if s < |recs| && s != i && s + 1 != i {
        assert out[j] == recs[s] && HeldAt(c, recs, s);
      }
    }
  }
}

/**
 Directories of kernel/ext2.c over the blocks that bmap gives them: dirlookup, dirlink and
 unlink walk the bytes; `names` is the finite map they are proved to implement.
 */
module Ext2Dir {
  import opened DirRecords

  const T_DIR: nat := 1
  const T_FILE: nat := 2

  // ------------------------------------------------- the map a directory stands for

  /** Position (n, i) holds a used record called name. */
  ghost predicate LiveAt(recs: seq<seq<Rec>>, n: nat, i: nat, name: Name) {
    n < |recs| && i < |recs[n]| && recs[n][i].ino != 0 && recs[n][i].name == name
  }

  ghost predicate SoundAt(recs: seq<seq<Rec>>, names: map<Name, nat>, n: nat, i: nat) {
    n < |recs| && i < |recs[n]| && recs[n][i].ino != 0 ==>
      recs[n][i].name in names && names[recs[n][i].name] == recs[n][i].ino
  }

  ghost predicate CompleteAt(recs: seq<seq<Rec>>, names: map<Name, nat>, name: Name) {
    name in names ==> exists n: nat, i: nat :: LiveAt(recs, n, i, name)
  }

  ghost predicate UniqueAt(recs: seq<seq<Rec>>, n: nat, i: nat, m: nat, j: nat) {
    n < |recs| && i < |recs[n]| && recs[n][i].ino != 0 && LiveAt(recs, m, j, recs[n][i].name) ==> n == m && i == j
  }

  /** The used records are exactly the entries of names, one record for each. */
  ghost predicate NamesOk(recs: seq<seq<Rec>>, names: map<Name, nat>) {
    && (forall n: nat, i: nat :: SoundAt(recs, names, n, i))
    && (forall name :: CompleteAt(recs, names, name))
    && (forall n: nat, i: nat, m: nat, j: nat :: UniqueAt(recs, n, i, m, j))
  }

  /** Same use of the record, whatever its place and length. */
  predicate SameEntry(r: Rec, q: Rec) {
    r.ino == q.ino && r.kind == q.kind && r.name == q.name
  }

  /** Index in the smaller list of entry j of the larger one, which has an extra entry at k. */
  function Back(k: nat, shift: bool, j: nat): nat {
    if shift && j > k then j - 1 else j
  }

  /** `out` is `was` with one more used record, at k: squeezed in, or in place of an unused one. */
  ghost predicate Inserted(was: seq<Rec>, out: seq<Rec>, k: nat, shift: bool, name: Name, ino: nat) {
    && k < |out| && ino != 0 && out[k].ino == ino && out[k].name == name
    && |out| == |was| + (if shift then 1 else 0)
    && (forall j: nat :: j < |out| && j != k ==> SameEntry(out[j], was[Back(k, shift, j)]))
    && (!shift ==> was[k].ino == 0)
  }

  lemma SplitInserts(recs: seq<Rec>, i: nat, used: nat, ino: nat, name: Name, kind: nat)
    requires i < |recs| && used <= recs[i].len && ino != 0
    ensures Inserted(recs, Split(recs, i, used, ino, name, kind), i + 1, true, name, ino)
  {
  }

  lemma RemovedInserts(recs: seq<Rec>, i: nat)
    requires i < |recs| && recs[i].ino != 0
    ensures Inserted(Removed(recs, i), recs, i, i > 0, recs[i].name, recs[i].ino)
  {
  }

  /** Where entry (m, i) of the smaller directory is in the larger one. */
  function Forth(n: nat, k: nat, shift: bool, m: nat, i: nat): nat {
    if m == n && shift && i >= k then i + 1 else i
  }

  lemma InsertedBack(was: seq<seq<Rec>>, out: seq<seq<Rec>>, n: nat, k: nat, shift: bool, name: Name, ino: nat, m: nat, i: nat)
    requires n < |was| && |out| == |was| && out == was[n := out[n]] && Inserted(was[n], out[n], k, shift, name, ino)
    requires m < |out| && i < |out[m]| && (m != n || i != k)
    ensures var b := if m == n then Back(k, shift, i) else i;
            b < |was[m]| && SameEntry(out[m][i], was[m][b]) && Forth(n, k, shift, m, b) == i
  {
  }

  lemma InsertedForth(was: seq<seq<Rec>>, out: seq<seq<Rec>>, n: nat, k: nat, shift: bool, name: Name, ino: nat, m: nat, i: nat)
    requires n < |was| && |out| == |was| && out == was[n := out[n]] && Inserted(was[n], out[n], k, shift, name, ino)
    requires m < |was| && i < |was[m]| && was[m][i].ino != 0
    ensures var f := Forth(n, k, shift, m, i);
            f < |out[m]| && SameEntry(out[m][f], was[m][i]) && (m != n || f != k)
  {
    if m == n {
      var f := Forth(n, k, shift, m, i);
      assert f < |out[n]| && f != k ==> SameEntry(out[n][f], was[n][Back(k, shift, f)]);
    }
  }

  /** One more used record is one more entry of the map. */
  lemma InsertNames(was: seq<seq<Rec>>, out: seq<seq<Rec>>, n: nat, k: nat, shift: bool, names: map<Name, nat>, name: Name, ino: nat)
    requires n < |was| && |out| == |was| && out == was[n := out[n]] && Inserted(was[n], out[n], k, shift, name, ino)
    requires NamesOk(was, names) && name !in names
    ensures NamesOk(out, names[name := ino])
  {
    var more := names[name := ino];
    forall m: nat, i: nat ensures SoundAt(out, more, m, i) {
      if m < |out| && i < |out[m]| && (m != n || i != k) {
        InsertedBack(was, out, n, k, shift, name, ino, m, i);
        assert SoundAt(was, names, m, if m == n then Back(k, shift, i) else i);
      }
    }
    forall x ensures CompleteAt(out, more, x) {
      assert CompleteAt(was, names, x);
      if x == name {
        assert LiveAt(out, n, k, x);
      } else if x in names {
        var m: nat, i: nat :| LiveAt(was, m, i, x);
        InsertedForth(was, out, n, k, shift, name, ino, m, i);
        assert LiveAt(out, m, Forth(n, k, shift, m, i), x);
      }
    }
    forall m: nat, i: nat, p: nat, j: nat ensures UniqueAt(out, m, i, p, j) {
      if m < |out| && i < |out[m]| && (m != n || i != k) {
        InsertedBack(was, out, n, k, shift, name, ino, m, i);
        assert SoundAt(was, names, m, if m == n then Back(k, shift, i) else i);
      }
      if p < |out| && j < |out[p]| && (p != n || j != k) {
        InsertedBack(was, out, n, k, shift, name, ino, p, j);
        assert SoundAt(was, names, p, if p == n then Back(k, shift, j) else j);
      }
      assert UniqueAt(was, m, if m == n then Back(k, shift, i) else i, p, if p == n then Back(k, shift, j) else j);
    }
  }

  /** One used record less is one entry less. */
  lemma DeleteNames(was: seq<seq<Rec>>, out: seq<seq<Rec>>, n: nat, k: nat, shift: bool, names: map<Name, nat>, name: Name, ino: nat)
    requires n < |was| && |out| == |was| && out == was[n := out[n]] && Inserted(was[n], out[n], k, shift, name, ino)
    requires NamesOk(out, names)
    ensures NamesOk(was, names - {name})
  {
    var less := names - {name};
    forall m: nat, i: nat ensures SoundAt(was, less, m, i) {
      if m < |was| && i < |was[m]| && was[m][i].ino != 0 {
        InsertedForth(was, out, n, k, shift, name, ino, m, i);
        var f := Forth(n, k, shift, m, i);
        assert SoundAt(out, names, m, f) && UniqueAt(out, n, k, m, f);
      }
    }
    forall x ensures CompleteAt(was, less, x) {
      assert CompleteAt(out, names, x);
      if x in less {
        var m: nat, i: nat :| LiveAt(out, m, i, x);
        InsertedBack(was, out, n, k, shift, name, ino, m, i);
        assert LiveAt(was, m, if m == n then Back(k, shift, i) else i, x);
      }
    }
    forall m: nat, i: nat, p: nat, j: nat ensures UniqueAt(was, m, i, p, j) {
      if m < |was| && i < |was[m]| && was[m][i].ino != 0 && LiveAt(was, p, j, was[m][i].name) {
        InsertedForth(was, out, n, k, shift, name, ino, m, i);
        InsertedForth(was, out, n, k, shift, name, ino, p, j);
        assert UniqueAt(out, m, Forth(n, k, shift, m, i), p, Forth(n, k, shift, p, j));
      }
    }
  }

  lemma ExtendNames(recs: seq<seq<Rec>>, names: map<Name, nat>)
    requires NamesOk(recs, names)
    ensures NamesOk(recs + [[]], names)
  {
    var more := recs + [[]];
    forall n: nat, i: nat ensures SoundAt(more, names, n, i) {
      assert SoundAt(recs, names, n, i);
    }
    forall name ensures CompleteAt(more, names, name) {
      assert CompleteAt(recs, names, name);
      if name in names {
        var n: nat, i: nat :| LiveAt(recs, n, i, name);
        assert LiveAt(more, n, i, name);
      }
    }
    forall n: nat, i: nat, m: nat, j: nat ensures UniqueAt(more, n, i, m, j) {
      assert UniqueAt(recs, n, i, m, j);
    }
  }

  ghost predicate BlockOk(blocks: seq<Block>, recs: seq<seq<Rec>>, n: nat) {
    n < |blocks| && n < |recs| ==> Tiled(blocks[n], recs[n])
  }

  /** No used record before position (n, i) is called name. */
  ghost predicate NoneAt(recs: seq<seq<Rec>>, name: Name, n: nat, i: nat, m: nat, j: nat) {
    m < n || (m == n && j < i) ==> !LiveAt(recs, m, j, name)
  }

  ghost predicate NoneBefore(recs: seq<seq<Rec>>, name: Name, n: nat, i: nat) {
    forall m: nat, j: nat :: NoneAt(recs, name, n, i, m, j)
  }

  lemma NoneStep(recs: seq<seq<Rec>>, name: Name, n: nat, i: nat)
    requires NoneBefore(recs, name, n, i) && n < |recs| && i < |recs[n]| && !LiveAt(recs, n, i, name)
    ensures i + 1 < |recs[n]| ==> NoneBefore(recs, name, n, i + 1)
    ensures i + 1 == |recs[n]| ==> NoneBefore(recs, name, n + 1, 0)
  {
    var ni, nn := i + 1, n + 1;
    forall m: nat, j: nat ensures NoneAt(recs, name, n, ni, m, j) && (ni == |recs[n]| ==> NoneAt(recs, name, nn, 0, m, j)) {
      assert NoneAt(recs, name, n, i, m, j);
    }
  }

  /** Byte offset of position (n, i); the end of the directory when n is past the last block. */
  ghost function Offset(recs: seq<seq<Rec>>, n: nat, i: nat): nat {
    n * 1024 + if n < |recs| && i < |recs[n]| then recs[n][i].off else 0
  }

  /** What bmap gives for the block past the end: some bytes, or the panic of a full disk. */
  datatype NewBlock = Raw(bytes: Block) | DiskFull

  /** What callers do with a directory; unlinking goes by the offset that dirlookup gives. */
  datatype Op = Lookup(name: Name) | Link(name: Name, ino: nat, kind: nat, next: NewBlock) | Remove(name: Name)

  datatype Reply = Absent | Present(ino: nat) | Panicked

  /** EXT2_FT_DIR or EXT2_FT_REG_FILE; the source panics at any other type. */
  predicate KnownType(kind: nat) {
    kind == T_DIR || kind == T_FILE
  }

  function FileType(kind: nat): nat {
    if kind == T_DIR then 2 else 1
  }

  /** The same on a finite map. */
  function MapStep(m: map<Name, nat>, op: Op, r: Reply): map<Name, nat> {
    match op
    case Lookup(_) => m
    case Link(name, ino, _, _) => if r == Absent then m[name := ino] else m
    case Remove(name) => m - {name}
  }

  /** A record that can give room bytes: an unused one, or what a used one does not need. */
  predicate HasRoom(r: Rec, room: nat) {
    r.len >= (if r.ino == 0 then 0 else Need(|r.name|)) + room
  }

  ghost predicate RoomAt(recs: seq<seq<Rec>>, room: nat, n: nat, i: nat) {
    n < |recs| && i < |recs[n]| && HasRoom(recs[n][i], room)
  }

  /** No record has room, so that the name needs a new block. */
  ghost predicate NoRoom(recs: seq<seq<Rec>>, name: Name) {
    forall n: nat, i: nat :: !RoomAt(recs, Need(|name|), n, i)
  }

  /** The one reply an operation gets, from the map and, for a link, the room in the records. */
  ghost function Answer(recs: seq<seq<Rec>>, m: map<Name, nat>, op: Op): Reply {
    if op.name in m then Present(m[op.name])
    else if op.Link? && (!KnownType(op.kind) || (op.next.DiskFull? && NoRoom(recs, op.name))) then Panicked
    else Absent
  }

  /** A link names an inode, has a name that fits, and a new block has the size of a block. */
  predicate OpOk(op: Op) {
    op.Link? ==> op.ino != 0 && |op.name| <= 255 && (op.next.Raw? ==> |op.next.bytes| == BS)
  }

  // ------------------------------------------------- the records after an operation

  /** The records of a block after an entry went to record i: split off its end, or in its place. */
  function Placed(rs: seq<Rec>, i: nat, ino: nat, name: Name, kind: nat): seq<Rec>
    requires i < |rs| && (rs[i].ino != 0 ==> Need(|rs[i].name|) <= rs[i].len)
  {
    if rs[i].ino != 0 then Split(rs, i, Need(|rs[i].name|), ino, name, kind) else rs[i := rs[i].(ino := ino, kind := kind, name := name)]
  }

  /** Position (m, j) comes before (n, i) and has no room. */
  ghost predicate FullBefore(recs: seq<seq<Rec>>, room: nat, n: nat, i: nat, m: nat, j: nat) {
    m < n || (m == n && j < i) ==> !RoomAt(recs, room, m, j)
  }

  /** (n, i) is the first record with room. */
  ghost predicate FirstRoom(recs: seq<seq<Rec>>, room: nat, n: nat, i: nat) {
    RoomAt(recs, room, n, i) && forall m: nat, j: nat :: FullBefore(recs, room, n, i, m, j)
  }

  ghost predicate PlacedAt(recs: seq<seq<Rec>>, after: seq<seq<Rec>>, ino: nat, name: Name, kind: nat, n: nat, i: nat) {
    FirstRoom(recs, Need(|name|), n, i) && after == recs[n := Placed(recs[n], i, ino, name, kind)]
  }

  ghost predicate RemovedAt(recs: seq<seq<Rec>>, after: seq<seq<Rec>>, name: Name, n: nat, i: nat) {
    LiveAt(recs, n, i, name) && after == recs[n := Removed(recs[n], i)]
  }

  /** The records after an operation that was answered with r: a new entry goes to the first
      record with room, else to a block of its own. */
  ghost predicate Follows(recs: seq<seq<Rec>>, op: Op, r: Reply, after: seq<seq<Rec>>) {
    match op
    case Lookup(_) => after == recs
    case Link(name, ino, t, _) =>
      if r != Absent then after == recs
      else if NoRoom(recs, name) then after == recs + [[Rec(0, BS, ino, FileType(t), name)]]
      else exists n: nat, i: nat :: PlacedAt(recs, after, ino, name, FileType(t), n, i)
    case Remove(name) =>
      if r.Present? then exists n: nat, i: nat :: RemovedAt(recs, after, name, n, i) else after == recs
  }

  /** They are determined. */
  lemma FollowsOne(recs: seq<seq<Rec>>, names: map<Name, nat>, op: Op, r: Reply, a: seq<seq<Rec>>, b: seq<seq<Rec>>)
    requires NamesOk(recs, names) && Follows(recs, op, r, a) && Follows(recs, op, r, b)
    ensures a == b
  {
    if op.Link? && r == Absent && !NoRoom(recs, op.name) {
      var n: nat, i: nat :| PlacedAt(recs, a, op.ino, op.name, FileType(op.kind), n, i);
      var m: nat, j: nat :| PlacedAt(recs, b, op.ino, op.name, FileType(op.kind), m, j);
      assert PlacedAt(recs, a, op.ino, op.name, FileType(op.kind), n, i) && PlacedAt(recs, b, op.ino, op.name, FileType(op.kind), m, j);
      assert FullBefore(recs, Need(|op.name|), n, i, m, j) && FullBefore(recs, Need(|op.name|), m, j, n, i);
    } else if op.Remove? && r.Present? {
      var n: nat, i: nat :| RemovedAt(recs, a, op.name, n, i);
      var m: nat, j: nat :| RemovedAt(recs, b, op.name, m, j);
      assert RemovedAt(recs, a, op.name, n, i) && RemovedAt(recs, b, op.name, m, j);
      assert UniqueAt(recs, n, i, m, j);
    }
  }

  /** The records of a directory and the map they stand for. */
  datatype Dir = Dir(recs: seq<seq<Rec>>, names: map<Name, nat>)

  ghost predicate LaidBlock(recs: seq<seq<Rec>>, n: nat) {
    n < |recs| ==> Laid(recs[n])
  }

  ghost predicate DirOk(d: Dir) {
    NamesOk(d.recs, d.names) && forall n: nat :: LaidBlock(d.recs, n)
  }

  ghost predicate StepAt(ops: seq<Op>, rs: seq<Reply>, trail: seq<Dir>, k: nat) {
    k < |ops| && k < |rs| && k + 1 < |trail| ==>
      && DirOk(trail[k]) && rs[k] == Answer(trail[k].recs, trail[k].names, ops[k])
      && trail[k + 1].names == MapStep(trail[k].names, ops[k], rs[k])
      && Follows(trail[k].recs, ops[k], rs[k], trail[k + 1].recs)
  }

  /** A run from trail[0]: every reply, map and list of records follows from those before. */
  ghost predicate History(ops: seq<Op>, rs: seq<Reply>, trail: seq<Dir>) {
    |rs| <= |ops| && |trail| == |rs| + 1 && forall k: nat :: StepAt(ops, rs, trail, k)
  }

  lemma HistoryOn(ops: seq<Op>, rs: seq<Reply>, trail: seq<Dir>, d: Dir, r: Reply, after: Dir)
    requires History(ops, rs, trail) && |rs| < |ops| && d == trail[|rs|] && DirOk(d)
    requires r == Answer(d.recs, d.names, ops[|rs|]) && after.names == MapStep(d.names, ops[|rs|], r)
    requires Follows(d.recs, ops[|rs|], r, after.recs)
    ensures History(ops, rs + [r], trail + [after])
  {
    var more, long := rs + [r], trail + [after];
    forall k: nat ensures StepAt(ops, more, long, k) { assert StepAt(ops, rs, trail, k); }
  }

  // ------------------------------------------------- what an entry stands for, until it is removed

  /** Position (n, i) holds name with that inode number and type. */
  ghost predicate EntryAt(recs: seq<seq<Rec>>, name: Name, ino: nat, kind: nat, n: nat, i: nat) {
    LiveAt(recs, n, i, name) && recs[n][i].ino == ino && recs[n][i].kind == kind
  }

  ghost predicate Entry(recs: seq<seq<Rec>>, name: Name, ino: nat, kind: nat) {
    exists n: nat, i: nat :: EntryAt(recs, name, ino, kind, n, i)
  }

  /** A link puts one more record into block n and moves the others at most. */
  lemma PlacedInserts(recs: seq<seq<Rec>>, after: seq<seq<Rec>>, ino: nat, name: Name, kind: nat, n: nat, i: nat)
    returns (k: nat, shift: bool)
    requires PlacedAt(recs, after, ino, name, kind, n, i) && ino != 0
    ensures n < |recs| && |after| == |recs| && after == recs[n := after[n]] && Inserted(recs[n], after[n], k, shift, name, ino)
    ensures EntryAt(after, name, ino, kind, n, k)
  {
    shift := recs[n][i].ino != 0;
    k := if shift then i + 1 else i;
    if shift { SplitInserts(recs[n], i, Need(|recs[n][i].name|), ino, name, kind); }
  }

  lemma PlacedKeeps(recs: seq<seq<Rec>>, op: Op, after: seq<seq<Rec>>, name: Name, ino: nat, kind: nat)
    requires op.Link? && op.ino != 0 && !NoRoom(recs, op.name) && Follows(recs, op, Absent, after) && Entry(recs, name, ino, kind)
    ensures Entry(after, name, ino, kind)
  {
    var n: nat, i: nat :| PlacedAt(recs, after, op.ino, op.name, FileType(op.kind), n, i);
    var k, shift := PlacedInserts(recs, after, op.ino, op.name, FileType(op.kind), n, i);
    var m: nat, j: nat :| EntryAt(recs, name, ino, kind, m, j);
    InsertedForth(recs, after, n, k, shift, op.name, op.ino, m, j);
    assert EntryAt(after, name, ino, kind, m, Forth(n, k, shift, m, j));
  }

  lemma RemovedKeeps(recs: seq<seq<Rec>>, after: seq<seq<Rec>>, gone: Name, name: Name, ino: nat, kind: nat, n: nat, i: nat)
    requires RemovedAt(recs, after, gone, n, i) && gone != name && Entry(recs, name, ino, kind)
    ensures Entry(after, name, ino, kind)
  {
    RemovedInserts(recs[n], i);
    var m: nat, j: nat :| EntryAt(recs, name, ino, kind, m, j);
    assert recs == after[n := recs[n]];
    InsertedBack(after, recs, n, i, i > 0, gone, recs[n][i].ino, m, j);
    assert EntryAt(after, name, ino, kind, m, if m == n then Back(i, i > 0, j) else j);
  }

  lemma EntryStep(recs: seq<seq<Rec>>, op: Op, r: Reply, after: seq<seq<Rec>>, name: Name, ino: nat, kind: nat)
    requires Follows(recs, op, r, after) && OpOk(op) && Entry(recs, name, ino, kind) && op != Remove(name)
    ensures Entry(after, name, ino, kind)
  {
    var m: nat, j: nat :| EntryAt(recs, name, ino, kind, m, j);
    if op.Link? && r == Absent {
      if NoRoom(recs, op.name) { assert EntryAt(after, name, ino, kind, m, j); } else { PlacedKeeps(recs, op, after, name, ino, kind); }
    } else if op.Remove? && r.Present? {
      var n: nat, i: nat :| RemovedAt(recs, after, op.name, n, i);
      RemovedKeeps(recs, after, op.name, name, ino, kind, n, i);
    }
  }

  /** A link that is answered with Absent makes the entry, of type 2 for a directory (1) and of
      type 1 for a file (2). */
  lemma LinkMakes(recs: seq<seq<Rec>>, op: Op, after: seq<seq<Rec>>)
    requires op.Link? && op.ino != 0 && Follows(recs, op, Absent, after)
    ensures Entry(after, op.name, op.ino, if op.kind == 1 then 2 else 1)
  {
    if NoRoom(recs, op.name) {
      assert EntryAt(after, op.name, op.ino, FileType(op.kind), |recs|, 0);
    } else {
      var n: nat, i: nat :| PlacedAt(recs, after, op.ino, op.name, FileType(op.kind), n, i);
      var k, shift := PlacedInserts(recs, after, op.ino, op.name, FileType(op.kind), n, i);
    }
  }

  lemma {:induction false} EntryStays(ops: seq<Op>, rs: seq<Reply>, trail: seq<Dir>, a: nat, b: nat, name: Name, ino: nat, kind: nat)
    requires History(ops, rs, trail) && a <= b <= |rs| && Entry(trail[a].recs, name, ino, kind)
    requires forall k :: a <= k < b ==> OpOk(ops[k]) && ops[k] != Remove(name)
    ensures Entry(trail[b].recs, name, ino, kind)
    decreases b
  {
    if a < b {
      EntryStays(ops, rs, trail, a, b - 1, name, ino, kind);
      assert StepAt(ops, rs, trail, b - 1);
      EntryStep(trail[b - 1].recs, ops[b - 1], rs[b - 1], trail[b].recs, name, ino, kind);
    }
  }

  /** What was linked stays in the blocks, with its inode number and type, and is found, until
      it is removed. */
  lemma LinkThenLookup(ops: seq<Op>, rs: seq<Reply>, trail: seq<Dir>, a: nat, b: nat)
    requires History(ops, rs, trail) && a < b < |rs| && ops[a].Link? && rs[a] == Absent && ops[b] == Lookup(ops[a].name)
    requires forall k :: a <= k < b ==> OpOk(ops[k]) && ops[k] != Remove(ops[a].name)
    ensures rs[b] == Present(ops[a].ino)
    ensures Entry(trail[b].recs, ops[a].name, ops[a].ino, if ops[a].kind == 1 then 2 else 1)
  {
    var name, ino, kind := ops[a].name, ops[a].ino, if ops[a].kind == 1 then 2 else 1;
    assert StepAt(ops, rs, trail, a) && StepAt(ops, rs, trail, b);
    LinkMakes(trail[a].recs, ops[a], trail[a + 1].recs);
    EntryStays(ops, rs, trail, a + 1, b, name, ino, kind);
    var n: nat, i: nat :| EntryAt(trail[b].recs, name, ino, kind, n, i);
    assert SoundAt(trail[b].recs, trail[b].names, n, i);
  }

  lemma {:induction false} AbsentStays(ops: seq<Op>, rs: seq<Reply>, trail: seq<Dir>, a: nat, b: nat, name: Name)
    requires History(ops, rs, trail) && a <= b <= |rs| && name !in trail[a].names
    requires forall k :: a <= k < b ==> !(ops[k].Link? && ops[k].name == name)
    ensures name !in trail[b].names
    decreases b
  {
    if a < b {
      AbsentStays(ops, rs, trail, a, b - 1, name);
      assert StepAt(ops, rs, trail, b - 1);
    }
  }

  /** What was removed is not found until it is linked again. */
  lemma RemoveThenLookup(ops: seq<Op>, rs: seq<Reply>, trail: seq<Dir>, a: nat, b: nat)
    requires History(ops, rs, trail) && a < b < |rs| && ops[a].Remove? && ops[b] == Lookup(ops[a].name)
    requires forall k :: a < k < b ==> !(ops[k].Link? && ops[k].name == ops[a].name)
    ensures rs[b] == Absent
  {
    assert StepAt(ops, rs, trail, a) && StepAt(ops, rs, trail, b);
    AbsentStays(ops, rs, trail, a + 1, b, ops[a].name);
  }

  class Directory {
    var blocks: seq<Block>              // dp->size is |blocks| * BS
    ghost var recs: seq<seq<Rec>>
    ghost var names: map<Name, nat>

    ghost predicate Valid()
      reads this
    {
      && |recs| == |blocks| && (forall n: nat :: BlockOk(blocks, recs, n))
      && NamesOk(recs, names)
    }

    /** An empty directory file. */
    constructor ()
      ensures Valid() && names == map[] && blocks == []
    {
      blocks, recs, names := [], [], map[];
    }

    /** Find the record called name; off is its byte offset in the directory. */
    method Dirlookup(name: Name) returns (found: bool, ino: nat, off: nat, ghost n: nat, ghost i: nat)
      requires Valid()
      ensures found <==> name in names
      ensures found ==> ino == names[name] && LiveAt(recs, n, i, name) && off == Offset(recs, n, i)
    {
      off, n, i := 0, 0, 0;
      forall m: nat, j: nat ensures NoneAt(recs, name, 0, 0, m, j) {}
      assert BlockOk(blocks, recs, 0);
      while off < |blocks| * 1024
        invariant n <= |blocks| && (n < |blocks| ==> i < |recs[n]|) && (n == |blocks| ==> i == 0)
        invariant off == Offset(recs, n, i) && NoneBefore(recs, name, n, i)
        decreases |blocks| - n, if n < |blocks| then |recs[n]| - i else 0
      {
        assert BlockOk(blocks, recs, n) && BlockOk(blocks, recs, n + 1);
        assert LaidAt(recs[n], i) && HeldAt(blocks[n], recs[n], i);
        RecEnds(recs[n], i);
        assert off / 1024 == n && off % 1024 == recs[n][i].off;
        var b := blocks[off / 1024];
        var de := Decode(b, off % 1024);
        if de.ino != 0 && |de.name| == |name| && de.name == name {
          assert LiveAt(recs, n, i, name) && SoundAt(recs, names, n, i);
          return true, de.ino, off, n, i;
        }
        NoneStep(recs, name, n, i);
        off := off + de.len;
        if i + 1 < |recs[n]| {
          i := i + 1;
        } else {
          n, i := n + 1, 0;
        }
      }
      if n < |blocks| {
        assert BlockOk(blocks, recs, n);
        RecEnds(recs[n], i);
      }
      forall m: nat, j: nat ensures !LiveAt(recs, m, j, name) {
        assert NoneAt(recs, name, n, i, m, j);
      }
      assert CompleteAt(recs, names, name);
      return false, 0, 0, 0, 0;
    }

    /** The inner loop of dirlink: a record of block b that can give room bytes. */
    static method FindRoom(b: Block, ghost rs: seq<Rec>, room: nat) returns (found: bool, o: nat, ghost i: nat)
      requires Tiled(b, rs) && 8 <= room <= BS
      ensures found ==> i < |rs| && o == rs[i].off
      ensures found ==> HasRoom(rs[i], room) && forall j: nat :: j < i ==> !HasRoom(rs[j], room)
      ensures !found ==> forall j: nat :: j < |rs| ==> !HasRoom(rs[j], room)
    {
      o, i := 0, 0;
      while o <= BS - room
        invariant i <= |rs| && o == (if i < |rs| then rs[i].off else BS)
        invariant forall j: nat :: j < i ==> !HasRoom(rs[j], room)
        decreases |rs| - i
      {
        assert LaidAt(rs, i) && HeldAt(b, rs, i);
        RecEnds(rs, i);
        var de := Decode(b, o);
        if de.len == 0 {
          assert false;
        }
        if de.ino == 0 && de.len >= room {
          return true, o, i;
        }
        if de.len >= Need(NameLen(b, o)) + room {
          return true, o, i;
        }
        o := o + de.len;
        i := i + 1;
      }
      forall j: nat | i <= j < |rs| ensures rs[j].len < room {
        RecEnds(rs, j);
        if i < j { OffsetsGrow(rs, i, j); }
      }
      found := false;
    }

    /** Put a record for name into block n, at the place that FindRoom found. */
    method LinkAt(n: nat, o: nat, ghost i: nat, ino: nat, name: Name, kind: nat)
      requires Valid() && n < |blocks| && i < |recs[n]| && o == recs[n][i].off
      requires name !in names && ino != 0
      requires HasRoom(recs[n][i], Need(|name|))
      modifies this
      ensures Valid() && names == old(names)[name := ino] && |blocks| == old(|blocks|)
      ensures recs == old(recs)[n := Placed(old(recs)[n], i, ino, name, kind)]
    {
      var b := blocks[n];
      assert BlockOk(blocks, recs, n);
      assert LaidAt(recs[n], i) && HeldAt(b, recs[n], i);
      RecEnds(recs[n], i);
      var de := Decode(b, o);
      var c;
      ghost var was := recs;
      if de.ino != 0 {
        var used := Need(|de.name|);
        c := SplitRecord(b, recs[n], i, o, de.len, used, ino, name, kind);
        SplitInserts(recs[n], i, used, ino, name, kind);
        recs := recs[n := Split(recs[n], i, used, ino, name, kind)];
        InsertNames(was, recs, n, i + 1, true, names, name, ino);
      } else {
        c := ReuseRecord(b, recs[n], i, o, ino, name, kind);
        recs := recs[n := recs[n][i := recs[n][i].(ino := ino, kind := kind, name := name)]];
        InsertNames(was, recs, n, i, false, names, name, ino);
      }
      blocks := blocks[n := c];
      names := names[name := ino];
      forall m: nat ensures BlockOk(blocks, recs, m) {
        assert BlockOk(old(blocks), was, m);
      }
    }

    /** A block past the end of the directory becomes one record. */
    method LinkFresh(raw: Block, ino: nat, name: Name, kind: nat)
      requires Valid() && |raw| == BS && 8 + |name| <= BS && name !in names && ino != 0
      modifies this
      ensures Valid() && names == old(names)[name := ino] && |blocks| == old(|blocks|) + 1
      ensures recs == old(recs) + [[Rec(0, BS, ino, kind, name)]]
    {
      var c := FreshRecord(raw, ino, name, kind);
      ghost var n := |recs|;
      ghost var was := recs + [[]];
      ExtendNames(recs, names);
      recs := recs + [[Rec(0, BS, ino, kind, name)]];
      assert recs == was[n := recs[n]];
      assert Inserted(was[n], recs[n], 0, true, name, ino);
      InsertNames(was, recs, n, 0, true, names, name, ino);
      blocks := blocks + [c];
      names := names[name := ino];
      forall m: nat ensures BlockOk(blocks, recs, m) {
        assert BlockOk(old(blocks), old(recs), m);
      }
    }

    /** Add name, unless it is there already: to the first record with room, else to a new
        block, for which the disk may be full. */
    method Dirlink(name: Name, ino: nat, kind: nat, next: NewBlock) returns (r: Reply)
      requires Valid() && OpOk(Link(name, ino, kind, next))
      modifies this
      ensures Valid() && r == Answer(old(recs), old(names), Link(name, ino, kind, next))
      ensures names == MapStep(old(names), Link(name, ino, kind, next), r)
      ensures Follows(old(recs), Link(name, ino, kind, next), r, recs)
      ensures r != Absent ==> blocks == old(blocks)
      ensures r.Present? <==> name in old(names)
      ensures r == Panicked <==> name !in old(names) && ((kind != 1 && kind != 2) || (next.DiskFull? && NoRoom(old(recs), name)))
      ensures r == Absent ==> IsStored(name, ino, if kind == 1 then 2 else 1)
    {
      var found, at, where, n0, i0 := Dirlookup(name);
      if found {
        return Present(at);
      }
      var got, n, o, i := FindPlace(name);
      if !KnownType(kind) || (!got && next.DiskFull?) {
        return Panicked;
      }
      if got {
        assert RoomAt(recs, Need(|name|), n, i);
        LinkAt(n, o, i, ino, name, FileType(kind));
        assert PlacedAt(old(recs), recs, ino, name, FileType(kind), n, i);
      } else {
        LinkFresh(next.bytes, ino, name, FileType(kind));
      }
      r := Absent;
      LinkMakes(old(recs), Link(name, ino, kind, next), recs);
      StoredEntry(name, ino, if kind == 1 then 2 else 1);
    }

    /** Record i of block n holds the entry: its inode number, its type byte and its name. */
    ghost predicate Stored(name: Name, ino: nat, kind: nat, n: nat, i: nat)
      reads this
    {
      && EntryAt(recs, name, ino, kind, n, i) && n < |blocks|
      && var b, o := blocks[n], recs[n][i].off;
         && o + 8 + |name| <= |b| && b[o] + 256 * b[o + 1] + 65536 * b[o + 2] + 16777216 * b[o + 3] == ino
         && b[o + 6] == |name| && b[o + 7] == kind && b[o + 8..o + 8 + |name|] == name
    }

    ghost predicate IsStored(name: Name, ino: nat, kind: nat)
      reads this
    {
      exists n: nat, i: nat :: Stored(name, ino, kind, n, i)
    }

    lemma StoredEntry(name: Name, ino: nat, kind: nat)
      requires Valid() && Entry(recs, name, ino, kind)
      ensures IsStored(name, ino, kind)
    {
      var n: nat, i: nat :| EntryAt(recs, name, ino, kind, n, i);
      assert BlockOk(blocks, recs, n) && HeldAt(blocks[n], recs[n], i);
      Layout(blocks[n], recs[n][i]);
      assert Stored(name, ino, kind, n, i);
    }

    /** The outer loop of dirlink. */
    method FindPlace(name: Name) returns (got: bool, n: nat, o: nat, ghost i: nat)
      requires Valid() && |name| <= 255
      ensures got ==> FirstRoom(recs, Need(|name|), n, i) && o == recs[n][i].off
      ensures !got ==> NoRoom(recs, name)
    {
      var room := Need(|name|);
      n, o, i := 0, 0, 0;
      while n < |blocks|
        invariant n <= |blocks|
        invariant forall m: nat, j: nat :: m < n ==> !RoomAt(recs, room, m, j)
      {
        assert BlockOk(blocks, recs, n);
        got, o, i := FindRoom(blocks[n], recs[n], room);
        if got {
          forall m: nat, j: nat ensures FullBefore(recs, room, n, i, m, j) {}
          return;
        }
        n := n + 1;
      }
      got := false;
    }

    /** ext2_unlink of the used record at byte offset off. */
    method Unlink(off: nat, ghost n: nat, ghost i: nat)
      requires Valid() && n < |recs| && i < |recs[n]| && recs[n][i].ino != 0 && off == Offset(recs, n, i)
      modifies this
      ensures Valid() && names == old(names) - {old(recs)[n][i].name} && |blocks| == old(|blocks|)
      ensures recs == old(recs)[n := Removed(old(recs)[n], i)]
    {
      assert BlockOk(blocks, recs, n);
      RecEnds(recs[n], i);
      assert off / 1024 == n && off % 1024 == recs[n][i].off;
      var c := RemoveRecord(blocks[off / 1024], recs[n], i, off % 1024);
      ghost var was := recs;
      ghost var r := recs[n][i];
      RemovedInserts(recs[n], i);
      recs := recs[n := Removed(recs[n], i)];
      assert was == recs[n := was[n]];
      DeleteNames(recs, was, n, i, i > 0, names, r.name, r.ino);
      blocks := blocks[off / 1024 := c];
      names := names - {r.name};
      forall m: nat ensures BlockOk(blocks, recs, m) {
        assert BlockOk(old(blocks), was, m);
      }
    }

    /** The records tile their blocks. */
    lemma Ok()
      requires Valid()
      ensures DirOk(Dir(recs, names))
    {
      forall n: nat ensures LaidBlock(recs, n) { assert BlockOk(blocks, recs, n); }
    }

    method Step(op: Op) returns (r: Reply)
      requires Valid() && OpOk(op)
      modifies this
      ensures Valid() && r == Answer(old(recs), old(names), op) && names == MapStep(old(names), op, r)
      ensures Follows(old(recs), op, r, recs)
    {
      match op {
        case Link(name, inum, kind, next) =>
          r := Dirlink(name, inum, kind, next);
        case Lookup(name) =>
          var found, ino, off, n, i := Dirlookup(name);
          r := if found then Present(ino) else Absent;
        case Remove(name) =>
          var found, ino, off, n, i := Dirlookup(name);
          r := if found then Present(ino) else Absent;
          if found {
            Unlink(off, n, i);
            assert RemovedAt(old(recs), recs, name, n, i);
          }
      }
    }

    /** Any sequence of operations behaves as on a finite map, up to a panic: every reply is
        the one answer, and the records change only as the operations say. */
    method Run(ops: seq<Op>) returns (rs: seq<Reply>, ghost trail: seq<Dir>)
      requires Valid() && forall k :: 0 <= k < |ops| ==> OpOk(ops[k])
      modifies this
      ensures Valid() && History(ops, rs, trail)
      ensures trail[0] == Dir(old(recs), old(names)) && trail[|rs|] == Dir(recs, names)
      ensures |rs| < |ops| ==> rs != [] && rs[|rs| - 1] == Panicked
    {
      rs, trail := [], [Dir(recs, names)];
      while |rs| < |ops|
        invariant Valid() && History(ops, rs, trail)
        invariant trail[0] == Dir(old(recs), old(names)) && trail[|rs|] == Dir(recs, names)
      {
        ghost var d := Dir(recs, names);
        Ok();
        var r := Step(ops[|rs|]);
        HistoryOn(ops, rs, trail, d, r, Dir(recs, names));
        rs, trail := rs + [r], trail + [Dir(recs, names)];
        if r == Panicked { return; }
      }
    }
  }
}
