/** A formatted disk byte by byte, as lab3/ospfs.h lays it out. */
module OspfsDisk {
  import opened OspfsLayout
  import opened OspfsContents
  import opened OspfsFs
  import opened OspfsSteps
  import opened OspfsFormat
  import opened OspfsBits
  import opened OspfsImage

  /** Four bytes as a number, the low-order byte first. */
  function Le(b: Block, o: nat): int
    requires o + 4 <= 1024
  {
    (b[o] as int) + 256 * (b[o + 1] as int) + 65536 * (b[o + 2] as int) + 16777216 * (b[o + 3] as int)
  }

  /** A number on the disk. A pointer past its end leads to zeros. */
  function Number(img: Image, n: int, o: nat): int
    requires o + 4 <= 1024
  {
    if 0 <= n < |img| then Le(img[n], o) else 0
  }

  function RawByte(img: Image, n: int, o: nat): int
    requires o < 1024
  {
    if 0 <= n < |img| then img[n][o] else 0
  }

  /** The block with block k of a file: ten pointers in the inode, 256 in the block that the eleventh leads to,
      and 256 in each of the blocks to which the block behind the twelfth leads. */
  function FileBlock(img: Image, i: nat, k: nat): int
    requires k < 10 + 256 + 65536
  {
    var b, o := 3 + i / 16, i % 16 * 64;
    if k < 10 then Number(img, b, o + 16 + 4 * k)
    else if k < 266 then Number(img, Number(img, b, o + 56), 4 * (k - 10))
    else Number(img, Number(img, Number(img, b, o + 60), 4 * ((k - 266) / 256)), 4 * ((k - 266) % 256))
  }

  lemma WordIs(b: Block, w: nat)
    requires w < 256
    ensures Word(b, w) == Le(b, 4 * w)
  {
  }

  lemma FieldAt(img: Image, g: Geometry, i: nat, f: nat)
    requires f < 16 && g.firstinob == 3
    ensures IGet(img, g, i, f) == Number(img, 3 + i / 16, i % 16 * 64 + 4 * f)
  {
    if 3 + i / 16 < |img| {
      WordIs(img[3 + i / 16], InodeWord(i, f));
      assert 4 * InodeWord(i, f) == i % 16 * 64 + 4 * f;
    }
    hide Word, Le;
  }

  lemma WordAtIs(img: Image, n: nat, w: nat)
    requires w < 256
    ensures WordAt(img, n, w) == Number(img, n, 4 * w)
  {
    if n < |img| {
      WordIs(img[n], w);
    }
  }

  lemma RefIs(img: Image, g: Geometry, i: nat, k: nat)
    requires k < 10 + 256 + 65536 && g.firstinob == 3
    ensures Ref(img, g, Data(i, k)) == FileBlock(img, i, k)
  {
    FieldAt(img, g, i, if k < 10 then 4 + k else if k < 266 then 14 else 15);
    hide Word, Le, Number;
    if k >= 266 {
      var first := IGet(img, g, i, 15);
      WordAtIs(img, first, (k - 266) / 256);
      WordAtIs(img, WordAt(img, first, (k - 266) / 256), (k - 266) % 256);
    } else if k >= 10 {
      WordAtIs(img, IGet(img, g, i, 14), k - 10);
    }
  }

  ghost predicate FileOnDisk(img: Image, i: nat, content: seq<byte>) {
    var b, o := 3 + i / 16, i % 16 * 64;
    && b < |img| && Number(img, b, o) == |content| <= 1024 * 65802 && Number(img, b, o + 4) == 0
    && forall p :: 0 <= p < |content| ==> RawByte(img, FileBlock(img, i, p / 1024), p % 1024) == content[p]
  }

  /** Entries are 128 bytes each: the inode number, and the name with a zero byte behind it. An entry with
      inode number 0 is not used. */
  ghost predicate DirectoryOnDisk(img: Image, d: nat, ents: seq<Entry>) {
    var b, o := 3 + d / 16, d % 16 * 64;
    var size := Number(img, b, o);
    && b < |img| && size % 1024 == 0 && |ents| * 128 <= size <= |ents| * 128 + 1024 && size <= 1024 * 65802 && Number(img, b, o + 4) == 1
    && (forall p :: 0 <= p < |ents| ==> EntryOnDisk(img, FileBlock(img, d, p / 8), p % 8 * 128, ents[p]))
    && forall p :: |ents| <= p < size / 128 ==> Number(img, FileBlock(img, d, p / 8), p % 8 * 128) == 0
  }

  ghost predicate EntryOnDisk(img: Image, n: int, at: nat, e: Entry)
    requires at + 128 <= 1024
  {
    && e.ino != 0 && Number(img, n, at) == e.ino && |e.name| <= 123
    && (forall x :: 0 <= x < |e.name| ==> RawByte(img, n, at + 4 + x) == e.name[x] != 0)
    && RawByte(img, n, at + 4 + |e.name|) == 0
  }

  /** The target of a symbolic link lies in the inode. */
  ghost predicate LinkOnDisk(img: Image, i: nat, target: seq<byte>) {
    var b, o := 3 + i / 16, i % 16 * 64;
    && b < |img| && Number(img, b, o) == |target| <= 51 && Number(img, b, o + 4) == 2
    && (forall x :: 0 <= x < |target| ==> RawByte(img, b, o + 12 + x) == target[x])
    && RawByte(img, b, o + 12 + |target|) == 0
  }

  /** The link count is the third number of an inode. */
  ghost predicate LinkCountOnDisk(img: Image, i: nat, n: nat) {
    Number(img, 3 + i / 16, i % 16 * 64 + 8) == n % 4294967296
  }

  lemma FileShown(img: Image, g: Geometry, nextb: nat, nextinode: nat, fs: Fs, i: nat)
    requires FsTree(img, g, nextb, nextinode, fs, -1, {}) && g.firstinob == 3 && i in fs.files
    ensures FileOnDisk(img, i, fs.files[i])
  {
    var content := fs.files[i];
    assert FileOk(img, g, fs.role, i, content);
    assert i < g.ninodes && |img| == g.nblocks && ValidGeometry(g);
    InodeInTable(g, i);
    FieldAt(img, g, i, 0);
    FieldAt(img, g, i, 1);
    hide FsTree, Owned, Number, IGet, Le;
    forall p | 0 <= p < |content|
      ensures RawByte(img, FileBlock(img, i, p / 1024), p % 1024) == content[p]
    {
      RefIs(img, g, i, p / 1024);
      assert ByteOf(img, g, i, p) == content[p];
      hide Ref, FileBlock;
    }
  }

  lemma DirectoryShown(img: Image, g: Geometry, nextb: nat, nextinode: nat, fs: Fs, d: nat)
    requires FsTree(img, g, nextb, nextinode, fs, -1, {}) && g.firstinob == 3 && d in fs.dirs
    ensures DirectoryOnDisk(img, d, Entries(fs.log, d))
  {
    var ents := Entries(fs.log, d);
    assert DirOk(img, g, fs.role, d, ents);
    assert d < g.ninodes && |img| == g.nblocks && ValidGeometry(g);
    InodeInTable(g, d);
    FieldAt(img, g, d, 0);
    FieldAt(img, g, d, 1);
    hide FsTree, Owned, Number, IGet, Le, NameAt, Entries, HasBlocks;
    assert IGet(img, g, d, SIZE) / 1024 <= 65802 by {
      SizeBounded(img, g, fs.role, d, ents);
    }
    forall p | 0 <= p < |ents|
      ensures EntryOnDisk(img, FileBlock(img, d, p / 8), p % 8 * 128, ents[p])
    {
      assert EntryOk(img, g, d, p, ents[p]);
      EntryShown(img, g, d, p, ents[p]);
    }
    forall p | |ents| <= p < Number(img, 3 + d / 16, d % 16 * 64) / 128
      ensures Number(img, FileBlock(img, d, p / 8), p % 8 * 128) == 0
    {
      assert EntryIno(img, g, d, p) == 0;
      EntryNumber(img, g, d, p);
    }
  }

  lemma SizeBounded(img: Image, g: Geometry, role: Roles, d: nat, ents: seq<Entry>)
    requires DirOk(img, g, role, d, ents)
    ensures IGet(img, g, d, SIZE) / 1024 <= 65802
  {
  }

  lemma EntryNumber(img: Image, g: Geometry, d: nat, p: nat)
    requires p < 8 * 65802 && g.firstinob == 3
    ensures EntryIno(img, g, d, p) == Number(img, FileBlock(img, d, p / 8), p % 8 * 128)
  {
    RefIs(img, g, d, p / 8);
    hide Ref, FileBlock;
    WordIs(EntryBlock(img, g, d, p), p % 8 * 32);
    ZeroWord(p % 8 * 32);
    hide Word;
  }

  lemma EntryShown(img: Image, g: Geometry, d: nat, p: nat, e: Entry)
    requires p < 8 * 65802 && g.firstinob == 3 && EntryOk(img, g, d, p, e)
    ensures EntryOnDisk(img, FileBlock(img, d, p / 8), p % 8 * 128, e)
  {
    EntryNumber(img, g, d, p);
    RefIs(img, g, d, p / 8);
    hide Ref, FileBlock, Word, Number, EntryIno;
  }

  lemma LinkShown(img: Image, g: Geometry, nextb: nat, nextinode: nat, fs: Fs, i: nat)
    requires FsTree(img, g, nextb, nextinode, fs, -1, {}) && g.firstinob == 3 && i in fs.links
    ensures LinkOnDisk(img, i, fs.links[i])
  {
    assert LinkOk(img, g, i, fs.links[i]);
    assert i < g.ninodes && |img| == g.nblocks && ValidGeometry(g);
    InodeInTable(g, i);
    FieldAt(img, g, i, 0);
    FieldAt(img, g, i, 1);
    hide FsTree, Owned, Number, IGet, Le;
  }

  // ---------------------------------------------------------------- the bitmap in bytes

  /** Bit k of a byte. */
  predicate Bit(b: int, k: nat)
    requires k < 8
  {
    b / [1, 2, 4, 8, 16, 32, 64, 128][k] % 2 == 1
  }

  lemma {:induction false} BitIs(b: nat, k: nat)
    requires k < 8
    ensures TestBit(b, k) <==> Bit(b, k)
  {
    if k > 0 {
      BitIs(b / 2, k - 1);
      BitHalved(b, k);
    }
  }

  lemma BitHalved(b: nat, k: nat)
    requires 0 < k < 8
    ensures Bit(b / 2, k - 1) <==> Bit(b, k)
  {
    assert b / 2 / 2 == b / 4 && b / 2 / 4 == b / 8 && b / 2 / 8 == b / 16 && b / 2 / 16 == b / 32 && b / 2 / 32 == b / 64;
    assert b / 2 / 64 == b / 128;
  }

  /** The low j bits and those above them. */
  lemma {:induction false} TestSplit(low: nat, high: nat, j: nat, k: nat)
    requires low < Pow2(j)
    ensures TestBit(low + Pow2(j) * high, k) == if k < j then TestBit(low, k) else TestBit(high, k - j)
  {
    if j > 0 {
      var x := Pow2(j - 1) * high;
      assert Pow2(j) * high == 2 * x;
      assert (low + 2 * x) / 2 == low / 2 + x && (low + 2 * x) % 2 == low % 2;
      if k > 0 {
        TestSplit(low / 2, high, j - 1, k - 1);
      }
    }
  }

  lemma WordBits(b: Block, i: nat)
    requires i < 8192
    ensures TestBit(Word(b, i / 32), i % 32) <==> Bit(b[i / 8], i % 8)
  {
    var o, k := i / 32 * 4, i % 32;
    var b0, b1, b2, b3: nat := b[o], b[o + 1], b[o + 2], b[o + 3];
    assert Pow2(8) == 256;
    assert Word(b, i / 32) == b0 + 256 * (b1 + 256 * (b2 + 256 * b3));
    hide TestBit, Bit, Pow2, Word;
    TestSplit(b0, b1 + 256 * (b2 + 256 * b3), 8, k);
    BitIs(b[i / 8], i % 8);
    if k >= 8 {
      TestSplit(b1, b2 + 256 * b3, 8, k - 8);
      if k >= 16 {
        TestSplit(b2, b3, 8, k - 16);
      }
    }
  }

  // ---------------------------------------------------------------- the whole disk

  /** The first three blocks: the second one is the superblock, the third one has a bit for every block, which
      is set for those that are free. */
  ghost predicate StartOnDisk(img: Image, nblocks: nat, ninodes: nat, nextb: nat) {
    && |img| == nblocks > 2
    && Number(img, 1, 0) == 0x013101AE && Number(img, 1, 4) == nblocks && Number(img, 1, 8) == ninodes && Number(img, 1, 12) == 3
    && forall i: nat :: i < 8192 ==> (Bit(img[2][i / 8], i % 8) <==> nextb <= i < nblocks)
  }

  lemma StartShown(img: Image, nblocks: nat, ninodes: nat, nextb: nat, nextinode: nat, fs: Fs)
    requires ValidArguments(nblocks, ninodes) && Formatted(img, GeometryOf(nblocks, ninodes), nextb, nextinode, fs)
    ensures StartOnDisk(img, nblocks, ninodes, nextb)
  {
    assert |img| == nblocks;
    hide FsTree, NlinksOk, Pow2;
    WordIs(img[1], 0);
    WordIs(img[1], 1);
    WordIs(img[1], 2);
    WordIs(img[1], 3);
    hide Word, Le;
    forall i: nat | i < 8192
      ensures Bit(img[2][i / 8], i % 8) <==> nextb <= i < nblocks
    {
      assert IsFree(img, i) <==> nextb <= i < nblocks;
      WordBits(img[2], i);
      hide Bit, TestBit;
    }
  }

  /** A formatted disk shows every file, directory and link in these bytes, and how many names each has. */
  lemma DiskExact(img: Image, nblocks: nat, ninodes: nat, nextb: nat, nextinode: nat, fs: Fs)
    requires ValidArguments(nblocks, ninodes) && Formatted(img, GeometryOf(nblocks, ninodes), nextb, nextinode, fs)
    ensures StartOnDisk(img, nblocks, ninodes, nextb)
    ensures forall i :: i in fs.files ==> FileOnDisk(img, i, fs.files[i])
    ensures forall d :: d in fs.dirs ==> DirectoryOnDisk(img, d, Entries(fs.log, d))
    ensures forall i :: i in fs.links ==> LinkOnDisk(img, i, fs.links[i])
    ensures forall i :: (i in fs.files && i != 0) || i in fs.links ==> LinkCountOnDisk(img, i, CountNamed(fs.log, i))
    ensures forall d :: d in fs.dirs ==> LinkCountOnDisk(img, d, 1 + CountSubdirs(fs.log, fs.dirs, d))
  {
    var g := GeometryOf(nblocks, ninodes);
    StartShown(img, nblocks, ninodes, nextb, nextinode, fs);
    hide StartOnDisk, FileOnDisk, DirectoryOnDisk, LinkOnDisk, FsTree, FreeExactly, SuperOk, IGet, Entries, CountNamed, CountSubdirs;
    forall i | i in fs.files
      ensures FileOnDisk(img, i, fs.files[i])
    {
      FileShown(img, g, nextb, nextinode, fs, i);
    }
    forall d | d in fs.dirs
      ensures DirectoryOnDisk(img, d, Entries(fs.log, d))
    {
      DirectoryShown(img, g, nextb, nextinode, fs, d);
    }
    forall i | i in fs.links
      ensures LinkOnDisk(img, i, fs.links[i])
    {
      LinkShown(img, g, nextb, nextinode, fs, i);
    }
    forall i: nat
      ensures IGet(img, g, i, NLINK) == Number(img, 3 + i / 16, i % 16 * 64 + 8)
    {
      FieldAt(img, g, i, 2);
    }
  }
}
