/** The OSPFS kernel module (lab3/ospfsmod.c) on a mounted disk: one array of bytes. */
module OspfsKernel {
  import opened OspfsLayout
  import opened OspfsContents
  import opened OspfsBits
  import opened OspfsFs
  import opened OspfsCosts
  import opened OspfsSteps
  import opened OspfsFormat
  import opened OspfsImage
  import opened OspfsGrow

  // ---------------------------------------------------------------- the array as blocks

  function BlockOf(s: seq<byte>, b: nat): Block
    requires (b + 1) * 1024 <= |s|
  {
    s[b * 1024..(b + 1) * 1024]
  }

  ghost function BlocksOf(s: seq<byte>): (img: Image)
    ensures |img| == |s| / 1024
    ensures forall b: nat :: b < |img| ==> img[b] == BlockOf(s, b)
  {
    seq(|s| / 1024, b requires 0 <= b < |s| / 1024 => BlockOf(s, b))
  }

  lemma BlockChanged(s: seq<byte>, s': seq<byte>, b: nat, data: Block)
    requires |s'| == |s| && |s| % 1024 == 0 && (b + 1) * 1024 <= |s|
    requires forall p: nat :: p < |s| && (p < b * 1024 || (b + 1) * 1024 <= p) ==> s'[p] == s[p]
    requires forall o: nat :: o < 1024 ==> s'[b * 1024 + o] == data[o]
    ensures BlocksOf(s') == BlocksOf(s)[b := data]
  {
    forall c: nat | c < |s| / 1024
      ensures BlockOf(s', c) == if c == b then data else BlockOf(s, c)
    {
      forall o: nat | o < 1024
        ensures BlockOf(s', c)[o] == (if c == b then data else BlockOf(s, c))[o]
      {
        assert BlockOf(s', c)[o] == s'[c * 1024 + o] && BlockOf(s, c)[o] == s[c * 1024 + o];
      }
    }
  }

  // ---------------------------------------------------------------- index functions

  function Indir2Index(b: nat): int {
    if b < NDIRECT + NINDIRECT then -1 else 0
  }

  function IndirIndex(b: nat): int {
    if b < NDIRECT then -1 else if b < NDIRECT + NINDIRECT then 0 else (b - NDIRECT - NINDIRECT) / NINDIRECT
  }

  function DirectIndex(b: nat): nat {
    if b < NDIRECT then b else (b - NDIRECT) % NINDIRECT
  }

  /** The three index functions describe the way to a block: which pointer block holds its
      pointer, and where. */
  lemma IndexesExact(i: nat, k: nat)
    requires k < MAXFILEBLKS
    ensures Indir2Index(k) == 0 <==> Parent(Data(i, k)).Ind2Ind?
    ensures IndirIndex(k) == -1 <==> Parent(Data(i, k)) == Data(i, k)
    ensures Indir2Index(k) == 0 ==> Parent(Data(i, k)) == Ind2Ind(i, IndirIndex(k))
    ensures Indir2Index(k) == -1 && IndirIndex(k) == 0 ==> Parent(Data(i, k)) == Ind(i)
    ensures SlotWord(Data(i, k)) == if k < NDIRECT then InodeWord(i, DIRECT + DirectIndex(k)) else DirectIndex(k)
  {
  }

  const EIO := 5
  const ENOSPC := 28

  /** How a call ends. The last three describe a point from which the model does not follow the
      source: a block was added that the block tree does not reach; a block was freed to which the
      inode still points; the size wraps around. */
  datatype Outcome = Ok | NoSpace | PartlyGrown(added: nat) | IoError | Lost(added: nat) | Dangling(added: nat) | Wrapped

  /** The pointer block for block n of a file is there when the blocks before n are: either it is
      needed by one of them, or add_block makes it. It makes none under the doubly indirect block. */
  predicate Reached(n: nat) {
    n < 266 || (n - 266) % 256 != 0
  }

  ghost predicate AllReached(from: nat, to: nat) {
    forall n: nat :: from <= n < to ==> Reached(n)
  }

  class Kernel {
    const data: array<byte>
    ghost const g: Geometry
    ghost const nextinode: nat
    ghost var fs: Fs

    /** The disk as it was formatted. */
    constructor (disk: Image, ghost g: Geometry, ghost nextinode: nat, ghost fs: Fs)
      requires Mounted(disk, g, nextinode, fs, -1, {})
      ensures Valid() && Img() == disk && this.fs == fs && this.g == g && this.nextinode == nextinode && fresh(data)
    {
      hide Mounted;
      data := new byte[|disk| * 1024](p requires 0 <= p < |disk| * 1024 => disk[p / 1024][p % 1024]);
      this.g, this.nextinode, this.fs := g, nextinode, fs;
      new;
      MountedBounds(disk, g, nextinode, fs, -1, {});
      forall b: nat | b < |disk|
        ensures BlockOf(data[..], b) == disk[b]
      {
        forall o: nat | o < 1024
          ensures BlockOf(data[..], b)[o] == disk[b][o]
        {
          assert BlockOf(data[..], b)[o] == data[b * 1024 + o];
        }
      }
      assert Img() == disk;
    }

    ghost function Img(): Image
      reads data
    {
      BlocksOf(data[..])
    }

    /** The disk is sound but for the inode that is open and the blocks that are pending. */
    ghost predicate Inv(open: int, pending: set<nat>)
      reads this, data
    {
      data.Length == g.nblocks * 1024 && Mounted(Img(), g, nextinode, fs, open, pending)
    }

    ghost predicate Valid()
      reads this, data
    {
      Inv(-1, {})
    }

    // -------------------------------------------------------------- words and blocks

    /** Word w of block b. */
    function U32(b: nat, w: nat): word
      reads data
      requires (b + 1) * 1024 <= data.Length && w < 256
    {
      (data[b * 1024 + 4 * w] as int) + 256 * (data[b * 1024 + 4 * w + 1] as int) +
      0x1_0000 * (data[b * 1024 + 4 * w + 2] as int) + 0x100_0000 * (data[b * 1024 + 4 * w + 3] as int)
    }

    lemma U32Is(b: nat, w: nat)
      requires (b + 1) * 1024 <= data.Length && w < 256
      ensures b < |Img()| && U32(b, w) == WordAt(Img(), b, w)
    {
      var blk := Img()[b];
      assert blk[4 * w] == data[b * 1024 + 4 * w] && blk[4 * w + 1] == data[b * 1024 + 4 * w + 1];
      assert blk[4 * w + 2] == data[b * 1024 + 4 * w + 2] && blk[4 * w + 3] == data[b * 1024 + 4 * w + 3];
    }

    method SetU32(b: nat, w: nat, v: word)
      requires data.Length % 1024 == 0 && (b + 1) * 1024 <= data.Length && w < 256
      modifies data
      ensures Img() == SetWordAt(old(Img()), b, w, v)
    {
      ghost var s := data[..];
      ghost var blk := SetWord(Img()[b], w, v);
      SetWordIs(Img()[b], w, v);
      var at := b * 1024 + 4 * w;
      data[at] := v % 256;
      data[at + 1] := v / 256 % 256;
      data[at + 2] := v / 0x1_0000 % 256;
      data[at + 3] := v / 0x100_0000;
      forall o: nat | o < 1024
        ensures data[b * 1024 + o] == blk[o]
      {
        assert BlocksOf(s)[b][o] == s[b * 1024 + o];
      }
      hide SetWord;
      BlockChanged(s, data[..], b, blk);
    }

    /** memset of a block to zero. */
    method Clear(b: nat)
      requires data.Length % 1024 == 0 && (b + 1) * 1024 <= data.Length
      modifies data
      ensures Img() == old(Img())[b := ZERO]
    {
      ghost var s := data[..];
      var o := 0;
      while o < 1024
        invariant o <= 1024
        invariant forall p: nat :: p < |s| ==> data[p] == if b * 1024 <= p < b * 1024 + o then 0 else s[p]
      {
        data[b * 1024 + o] := 0;
        o := o + 1;
      }
      BlockChanged(s, data[..], b, ZERO);
    }

    /** copy_from_user into part of a block. */
    method CopyIn(b: nat, off: nat, bytes: seq<byte>)
      requires data.Length % 1024 == 0 && (b + 1) * 1024 <= data.Length && off + |bytes| <= 1024
      modifies data
      ensures b < |old(Img())| && Img() == old(Img())[b := Splice(old(Img())[b], off, bytes)]
    {
      ghost var s := data[..];
      ghost var blk := Splice(Img()[b], off, bytes);
      var o := 0;
      while o < |bytes|
        invariant o <= |bytes|
        invariant forall p: nat :: p < |s| ==> data[p] == if b * 1024 + off <= p < b * 1024 + off + o then bytes[p - b * 1024 - off] else s[p]
      {
        data[b * 1024 + off + o] := bytes[o];
        o := o + 1;
      }
      forall o: nat | o < 1024
        ensures data[b * 1024 + o] == blk[o]
      {
        assert BlocksOf(s)[b][o] == s[b * 1024 + o];
      }
      BlockChanged(s, data[..], b, blk);
    }

    // -------------------------------------------------------------- superblock and inodes

    lemma Super(open: int, pending: set<nat>)
      requires Inv(open, pending)
      ensures ValidGeometry(g) && data.Length == g.nblocks * 1024 && |Img()| == g.nblocks && nextinode <= g.ninodes
      ensures U32(1, 1) == g.nblocks && U32(1, 2) == g.ninodes && U32(1, 3) == g.firstinob
    {
      hide Word;
      MountedBounds(Img(), g, nextinode, fs, open, pending);
      U32Is(1, 1);
      U32Is(1, 2);
      U32Is(1, 3);
      hide FilesOk, DirsOk, LinksOk, FreeOk, Owned, InodesOk;
    }

    /** Field f of the inode that ospfs_inode finds for ino. */
    function Field(ino: nat, f: nat): word
      reads data
      requires f < 16 && 2048 <= data.Length && (U32(1, 3) + ino / 16 + 1) * 1024 <= data.Length
    {
      U32(U32(1, 3) + ino / 16, ino % 16 * 16 + f)
    }

    lemma FieldIs(open: int, pending: set<nat>, ino: nat, f: nat)
      requires Inv(open, pending) && ino < g.ninodes && f < 16
      ensures 2048 <= data.Length && (U32(1, 3) + ino / 16 + 1) * 1024 <= data.Length
      ensures Field(ino, f) == IGet(Img(), g, ino, f)
    {
      hide Mounted, Word, U32;
      Super(open, pending);
      InodeInTable(g, ino);
      U32Is(InodeBlock(g, ino), InodeWord(ino, f));
    }

    function Size2Nblocks(size: word): (r: word)
      ensures size + 1023 < 0x1_0000_0000 ==> r == Nblocks(size)
    {
      (size + 1023) % 0x1_0000_0000 / 1024
    }

    /** The block that holds a byte of a file, 0 if there is none: the kernel's own walk over
        the block tree agrees with the pointers that the tree is made of. */
    method InodeBlockno(ino: nat, offset: word, ghost open: int) returns (b: word)
      requires Inv(open, {}) && ino < g.ninodes
      requires offset < IGet(Img(), g, ino, SIZE) && IGet(Img(), g, ino, FTYPE) != FTYPE_SYMLINK ==> Data(ino, offset / 1024) in fs.role.Values
      ensures b == if offset >= IGet(Img(), g, ino, SIZE) || IGet(Img(), g, ino, FTYPE) == FTYPE_SYMLINK then 0
                   else Ref(Img(), g, Data(ino, offset / 1024))
      ensures b < g.nblocks
    {
      hide Mounted, Word, U32, Owned, IGet, Field;
      Super(open, {});
      FieldIs(open, {}, ino, SIZE);
      FieldIs(open, {}, ino, FTYPE);
      var blockno := offset / 1024;
      if offset >= Field(ino, SIZE) || Field(ino, FTYPE) == FTYPE_SYMLINK {
        return 0;
      }
      MountedBounds(Img(), g, nextinode, fs, open, {});
      WayIn(Img(), g, fs.role, Live(fs), ino, blockno);
      RefAsWord(Img(), g, Data(ino, blockno));
      if blockno >= 266 {
        var blockoff := blockno - 266;
        FieldIs(open, {}, ino, INDIRECT2);
        var indirect2 := Field(ino, INDIRECT2);
        U32Is(indirect2, blockoff / 256);
        var indirect := U32(indirect2, blockoff / 256);
        U32Is(indirect, blockoff % 256);
        return U32(indirect, blockoff % 256);
      } else if blockno >= 10 {
        FieldIs(open, {}, ino, INDIRECT);
        U32Is(Field(ino, INDIRECT), blockno - 10);
        return U32(Field(ino, INDIRECT), blockno - 10);
      } else {
        FieldIs(open, {}, ino, DIRECT + blockno);
        DirectRef(Img(), g, ino, blockno);
        return Field(ino, DIRECT + blockno);
      }
    }

    // -------------------------------------------------------------- the bitmap

    function BitTest(i: nat): bool
      reads data
      requires 3072 <= data.Length && i < 8192
    {
      TestBit(U32(2, i / 32), i % 32)
    }

    lemma BitTestIs(i: nat)
      requires 3072 <= data.Length && i < 8192
      ensures BitTest(i) == IsFree(Img(), i)
    {
      U32Is(2, i / 32);
    }

    method BitClear(i: nat)
      requires data.Length % 1024 == 0 && 3072 <= data.Length && i < 8192
      modifies data
      ensures Img() == Cleared(old(Img()), i)
    {
      hide U32, Word, ClearBit;
      U32Is(2, i / 32);
      ClearExact(U32(2, i / 32), i % 32, 0);
      SetU32(2, i / 32, ClearBit(U32(2, i / 32), i % 32));
    }

    method BitSet(i: nat)
      requires data.Length % 1024 == 0 && 3072 <= data.Length && i < 8192
      modifies data
      ensures Img() == Marked(old(Img()), i)
    {
      hide U32, Word, SetBit;
      U32Is(2, i / 32);
      Pow32();
      SetExact(U32(2, i / 32), i % 32, 0, 32);
      SetU32(2, i / 32, SetBit(U32(2, i / 32), i % 32));
    }

    /** Takes the first free block, and only that, or returns 0 if no block is free. */
    method AllocateBlock(ghost open: int, ghost pending: set<nat>) returns (b: nat)
      requires Inv(open, pending)
      modifies data
      ensures b < g.nblocks && (b == 0 <==> !HasFree(old(Img()), 1))
      ensures b == 0 ==> Img() == old(Img()) && Inv(open, pending)
      ensures b != 0 ==> IsFree(old(Img()), b) && forall j: nat :: j < b ==> !IsFree(old(Img()), j)
      ensures b != 0 ==> Img() == Cleared(old(Img()), b) && Inv(open, pending + {b}) && LowOnly(old(Img()), Img(), g)
      ensures b != 0 ==> forall i :: i in Live(fs) ==> SameData(old(Img()), Img(), g, fs.role, i)
      ensures b != 0 ==> g.firstdata <= b && b !in fs.role && b !in pending
    {
      hide Mounted, Cleared, IsFree, BitTest, LowOnly, SameData, U32, HasFree;
      OneFree(Img());
      Super(open, pending);
      LowNotFree(Img(), g, nextinode, fs, open, pending);
      b := 2;
      while b < U32(1, 1)
        invariant 2 <= b <= g.nblocks && Inv(open, pending) && Img() == old(Img()) && U32(1, 1) == g.nblocks
        invariant forall j: nat :: j < b ==> !IsFree(Img(), j)
      {
        BitTestIs(b);
        if BitTest(b) {
          Allocated(Img(), g, nextinode, fs, open, pending, b);
          BitClear(b);
          return;
        }
        b := b + 1;
      }
      b := 0;
    }

    /** Gives back a block that was allocated but has no owner. */
    method FreeBlock(blockno: nat, ghost open: int, ghost pending: set<nat>)
      requires Inv(open, pending) && blockno in pending
      modifies data
      ensures Inv(open, pending - {blockno}) && Img() == Marked(old(Img()), blockno) && LowOnly(old(Img()), Img(), g)
      ensures forall i :: i in Live(fs) ==> SameData(old(Img()), Img(), g, fs.role, i)
    {
      hide Mounted, Marked, IsFree, BitTest, LowOnly, SameData, U32;
      Super(open, pending);
      MountedBounds(Img(), g, nextinode, fs, open, pending);
      if blockno < U32(1, 3) {
        assert false;
      }
      BitTestIs(blockno);
      PendingNotFree(Img(), g, nextinode, fs, open, pending, blockno);
      Freed(Img(), g, nextinode, fs, open, pending, blockno);
      if !BitTest(blockno) {
        BitSet(blockno);
      }
    }

    // -------------------------------------------------------------- growing a file

    method SetField(ino: nat, f: nat, v: word, ghost open: int, ghost pending: set<nat>)
      requires Inv(open, pending) && ino < g.ninodes && f < 16
      modifies data
      ensures Img() == ISet(old(Img()), g, ino, f, v)
    {
      hide Mounted, U32, Word, SetWord;
      Super(open, pending);
      InodeInTable(g, ino);
      SetU32(U32(1, 3) + ino / 16, ino % 16 * 16 + f, v);
    }

    /** Regular file ino is open: it has n blocks that hold the content and a size field. */
    ghost predicate Holding(ino: nat, n: nat, content: seq<byte>, size: nat, pending: set<nat>)
      reads this, data
    {
      && Inv(ino, pending) && ino in fs.files
      && Body(Img(), g, fs.role, ino, n, content) && IGet(Img(), g, ino, SIZE) == size && IGet(Img(), g, ino, FTYPE) == FTYPE_REG
    }

    /** A free block, cleared. */
    method NewBlock(ino: nat, ghost n: nat, ghost content: seq<byte>, ghost size: nat, ghost pending: set<nat>) returns (b: nat)
      requires Holding(ino, n, content, size, pending)
      modifies data
      ensures b < g.nblocks && (b == 0 <==> !HasFree(old(Img()), 1))
      ensures b == 0 ==> Img() == old(Img()) && Holding(ino, n, content, size, pending)
      ensures b != 0 ==> Holding(ino, n, content, size, pending + {b}) && IsFree(old(Img()), b)
      ensures b != 0 ==> g.firstdata <= b && b !in pending && Img() == Cleared(old(Img()), b)[b := ZERO]
    {
      hide Mounted, Cleared, IsFree, LowOnly, SameData, U32, Body, IGet, HasFree;
      ghost var img := Img();
      Super(ino, pending);
      MountedBounds(img, g, nextinode, fs, ino, pending);
      b := AllocateBlock(ino, pending);
      if b != 0 {
        ghost var img1 := Img();
        OpenKept(img, img1, g, fs.role, ino, n, content);
        PendingWritten(img1, g, nextinode, fs, ino, pending + {b}, b, ZERO);
        OpenKept(img1, img1[b := ZERO], g, fs.role, ino, n, content);
        Clear(b);
      }
    }

    /** The pointer to block n of a file has a place that add_block finds: in the inode, in the
        indirect block, which it makes if need be, or in an indirect block that is there already. */
    ghost predicate Placed(ino: nat, n: nat)
      reads this
    {
      n < 266 || Parent(Data(ino, n)) in fs.role.Values
    }

    /** How many blocks add_block needs for block n of a file. */
    ghost function Needed(ino: nat, n: nat): nat
      reads this
    {
      if n >= 10 && Parent(Data(ino, n)) !in fs.role.Values then 2 else 1
    }

    ghost function Top(ino: nat, deep: bool): Role {
      if deep then Ind2(ino) else Ind(ino)
    }

    /** The indirect or doubly indirect block of a file, made if it is not there yet. */
    method GetIndirect(ino: nat, deep: bool, b: nat, ghost n: nat, ghost content: seq<byte>, ghost size: nat) returns (p: nat)
      requires Holding(ino, n, content, size, {b}) && Img()[b] == ZERO
      modifies data, this`fs
      ensures p == 0 <==> Top(ino, deep) !in old(fs).role.Values && !HasFree(old(Img()), 1)
      ensures p == 0 ==> Img() == old(Img()) && fs == old(fs) && Holding(ino, n, content, size, {b})
      ensures p != 0 ==> fs == old(fs).(role := fs.role) && Holding(ino, n, content, size, {b}) && Img()[b] == ZERO
      ensures p != 0 ==> Top(ino, deep) in fs.role.Values && p == Ref(Img(), g, Top(ino, deep)) && g.firstdata <= p < g.nblocks
      ensures Top(ino, deep) in old(fs).role.Values ==> fs == old(fs) && Img() == old(Img())
      ensures Top(ino, deep) !in old(fs).role.Values && p != 0 ==> HasFree(old(Img()), 1) && (HasFree(Img(), 1) <==> HasFree(old(Img()), 2))
      ensures forall r :: r in fs.role.Values && r != Top(ino, deep) ==> r in old(fs).role.Values
    {
      hide Mounted, Cleared, IsFree, LowOnly, SameData, U32, Body, IGet, HasFree, Owned, Ref, Hook, Field, ISet, Rebuilt, Anchored;
      Super(ino, {b});
      ghost var img, r := Img(), Top(ino, deep);
      var field := if deep then INDIRECT2 else INDIRECT;
      MountedBounds(img, g, nextinode, fs, ino, {b});
      IndirectExact(img, g, fs.role, Live(fs), ino, deep);
      FieldIs(ino, {b}, ino, field);
      p := Field(ino, field);
      if p == 0 {
        p := NewBlock(ino, n, content, size, {b});
        if p != 0 {
          ghost var img1 := Img();
          FirstStays(img, img1, p, b);
          assert {b} + {p} == {b, p};
          PointerAdded(img1, g, nextinode, fs, ino, r, {b, p}, p);
          InodeHook(img1, g, r, p, field);
          RebuiltKeeps(img1, Hook(img1, g, r, p), g, fs.role, fs.role[p := r], ino, n, content);
          SetField(ino, field, p, ino, {b, p});
          InodeStaysAway(img1, g, ino, field, p, b);
          TakenForTop(img, Img(), g, ino, field, p);
          fs := fs.(role := fs.role[p := r]);
          assert {b, p} - {p} == {b};
        }
      }
    }

    method SetSize(ino: nat, ghost n: nat, ghost content: seq<byte>, size: nat, ghost pending: set<nat>)
      requires Inv(ino, pending) && ino in fs.files && Body(Img(), g, fs.role, ino, n, content) && IGet(Img(), g, ino, FTYPE) == FTYPE_REG
      requires size < 0x1_0000_0000
      modifies data
      ensures Holding(ino, n, content, size, pending)
      ensures Img() == ISet(old(Img()), g, ino, SIZE, size)
    {
      hide Mounted, Body, IGet, ISet;
      MountedBounds(Img(), g, nextinode, fs, ino, pending);
      SizeStored(Img(), g, nextinode, fs, ino, size, n, content, pending);
      SetField(ino, SIZE, size, ino, pending);
    }

    /** The end of add_block under the direct pointers. */
    method AddDirect(ino: nat, n: nat, b: nat, ghost content: seq<byte>, ghost size: nat)
      requires Holding(ino, n, content, size, {b}) && n < 10 && b < g.nblocks && Img()[b] == ZERO
      modifies data, this`fs
      ensures fs == old(fs).(role := fs.role) && Holding(ino, n + 1, content, size, {})
    {
      hide Mounted, SameData, U32, Body, IGet, Owned, Ref, Hook, ISet, SlotBlock, Anchored, HasBlocks, Grown;
      ghost var img, role := Img(), fs.role;
      MountedBounds(img, g, nextinode, fs, ino, {b});
      NextAnchored(img, g, role, Live(fs), ino, n, content);
      DataAdded(img, g, nextinode, fs, ino, {b}, n, b);
      InodeHook(img, g, Data(ino, n), b, DIRECT + n);
      SetField(ino, DIRECT + n, b, ino, {b});
      GrownBody(img, Img(), g, role, role[b := Data(ino, n)], ino, n, b, content);
      fs := fs.(role := role[b := Data(ino, n)]);
      assert {b} - {b} == {};
    }

    /** The end of add_block under an indirect block. */
    method AddIndirect(ino: nat, n: nat, b: nat, indir: nat, ghost content: seq<byte>, ghost size: nat)
      requires Holding(ino, n, content, size, {b}) && 10 <= n < MAXFILEBLKS && b < g.nblocks && Img()[b] == ZERO
      requires Parent(Data(ino, n)) in fs.role.Values && indir == Ref(Img(), g, Parent(Data(ino, n))) && indir < g.nblocks
      modifies data, this`fs
      ensures fs == old(fs).(role := fs.role) && Holding(ino, n + 1, content, size, {})
    {
      hide Mounted, SameData, U32, Body, IGet, Owned, Ref, Hook, ISet, SlotBlock, Anchored, HasBlocks, Grown, DirectIndex;
      ghost var img, role := Img(), fs.role;
      MountedBounds(img, g, nextinode, fs, ino, {b});
      NextAnchored(img, g, role, Live(fs), ino, n, content);
      DataAdded(img, g, nextinode, fs, ino, {b}, n, b);
      HookIs(img, g, ino, n, b);
      SetU32(indir, DirectIndex(n), b);
      GrownBody(img, Img(), g, role, role[b := Data(ino, n)], ino, n, b, content);
      fs := fs.(role := role[b := Data(ino, n)]);
      assert {b} - {b} == {};
    }

    /** The branch of add_block under the indirect block. Without room for that block the new
        block is given back. */
    method AddFar(ino: nat, n: nat, b: nat, ghost content: seq<byte>, ghost size: nat) returns (ok: bool)
      requires Holding(ino, n, content, size, {b}) && 10 <= n < 266 && g.firstdata <= b < g.nblocks && Img()[b] == ZERO
      modifies data, this`fs
      ensures ok <==> Parent(Data(ino, n)) in old(fs).role.Values || HasFree(old(Img()), 1)
      ensures !ok ==> fs == old(fs) && Holding(ino, n, content, size, {}) && Img() == Marked(old(Img()), b)
      ensures ok ==> fs == old(fs).(role := fs.role) && Holding(ino, n + 1, content, size, {})
    {
      hide Mounted, Cleared, Marked, IsFree, LowOnly, SameData, U32, Body, IGet, HasFree, Owned, Ref, Field, SameUsed;
      assert {b} - {b} == {};
      ghost var img := Img();
      MountedBounds(img, g, nextinode, fs, ino, {b});
      var indir := GetIndirect(ino, false, b, n, content, size);
      if indir == 0 {
        FreeBlock(b, ino, {b});
        OpenKept(img, Img(), g, fs.role, ino, n, content);
        return false;
      }
      AddIndirect(ino, n, b, indir, content, size);
      return true;
    }

    /** How many blocks add_block takes before it loses two of them. */
    ghost function Squandered(ino: nat): nat
      reads this
    {
      if Ind2(ino) in fs.role.Values then 2 else 3
    }

    /** Two blocks have been taken for block n of a file, and the block tree reaches neither. */
    ghost predicate IsLost(ino: nat, n: nat, content: seq<byte>, size: nat, lost: set<nat>)
      reads this, data
    {
      && Holding(ino, n, content, size, lost) && |lost| == 2 && 266 <= n < MAXFILEBLKS
      && Ind2(ino) in fs.role.Values && Parent(Data(ino, n)) !in fs.role.Values
    }

    lemma LostPointer(ino: nat, n: nat, content: seq<byte>, size: nat, lost: set<nat>)
      requires IsLost(ino, n, content, size, lost)
      ensures Ref(Img(), g, Parent(Data(ino, n))) == 0
      ensures forall b :: b in lost ==> b !in fs.role && b < 8192 && !IsFree(Img(), b)
    {
      hide Mounted, Body, IGet, Ref, IsFree;
      MountedBounds(Img(), g, nextinode, fs, ino, lost);
      DeepExact(Img(), g, fs.role, Live(fs), ino, (n - 266) / 256);
      forall b | b in lost
        ensures b !in fs.role && b < 8192 && !IsFree(Img(), b)
      {
        PendingNotFree(Img(), g, nextinode, fs, ino, lost, b);
      }
    }

    /** The inode points to a doubly indirect block that is free. */
    ghost predicate Dangles(ino: nat)
      reads data
    {
      var q := IGet(Img(), g, ino, INDIRECT2);
      0 < q < 8192 && IsFree(Img(), q)
    }

    /** A block with a place in the tree frees itself no more than a pending one: it is in use. */
    lemma OwnedNotFree(ino: nat, pending: set<nat>, q: nat)
      requires Inv(ino, pending) && q in fs.role
      ensures q < 8192 && !IsFree(Img(), q)
    {
      hide FilesOk, DirsOk, LinksOk, InodesOk, SuperOk, IsFree;
    }

    /** free_block on the doubly indirect block that has just been hooked up. */
    method FreeHooked(ino: nat, q: nat, ghost pending: set<nat>)
      requires Inv(ino, pending) && ino < g.ninodes && q in fs.role && q == IGet(Img(), g, ino, INDIRECT2) && q != 0
      modifies data
      ensures Dangles(ino)
    {
      hide Mounted, Marked, IsFree, BitTest, U32, IGet;
      Super(ino, pending);
      OwnedNotFree(ino, pending, q);
      BitTestIs(q);
      ghost var img := Img();
      if !BitTest(q) {
        BitSet(q);
      }
      MarkedExact(img, q, q);
      InodeInTable(g, ino);
      SameField(img, Img(), g, ino, INDIRECT2);
    }

    lemma SameField(img: Image, img': Image, g: Geometry, i: nat, f: nat)
      requires InodeBlock(g, i) < |img| == |img'| && img'[InodeBlock(g, i)] == img[InodeBlock(g, i)] && f < 16
      ensures IGet(img', g, i, f) == IGet(img, g, i, f)
    {
    }

    /** Writing to a pending block changes nothing that is said about a file. */
    method WritePending(ino: nat, n: nat, x: nat, w: nat, v: word, ghost content: seq<byte>, ghost size: nat, ghost pending: set<nat>)
      requires Holding(ino, n, content, size, pending) && x in pending && x < g.nblocks && w < 256
      modifies data
      ensures Holding(ino, n, content, size, pending)
    {
      hide Mounted, SameData, U32, Body, IGet, SetWord;
      ghost var img := Img();
      MountedBounds(img, g, nextinode, fs, ino, pending);
      PendingWritten(img, g, nextinode, fs, ino, pending, x, SetWord(img[x], w, v));
      SetU32(x, w, v);
      OpenKept(img, Img(), g, fs.role, ino, n, content);
    }

    lemma LostIs(ino: nat, n: nat, content: seq<byte>, size: nat, b: nat, x: nat)
      requires Holding(ino, n, content, size, {b, x}) && 266 <= n < MAXFILEBLKS && b != x
      requires Ind2(ino) in fs.role.Values && Parent(Data(ino, n)) !in fs.role.Values
      ensures IsLost(ino, n, content, size, {b, x})
    {
      hide Holding;
    }

    /** The new block is written into a new indirect block that nothing points to. */
    method LoseBlock(ino: nat, n: nat, b: nat, x: nat, ghost content: seq<byte>, ghost size: nat)
      requires Holding(ino, n, content, size, {b, x}) && 266 <= n < MAXFILEBLKS && x < g.nblocks && b < g.nblocks <= 8192 && b != x
      requires Ind2(ino) in fs.role.Values && Parent(Data(ino, n)) !in fs.role.Values
      modifies data
      ensures IsLost(ino, n, content, size, {b, x})
    {
      WritePending(ino, n, x, DirectIndex(n), b, content, size, {b, x});
      LostIs(ino, n, content, size, b, x);
    }

    lemma DeepParts(ino: nat, n: nat, content: seq<byte>, size: nat, pending: set<nat>)
      requires Holding(ino, n, content, size, pending)
      ensures ino in Live(fs) && ino < g.ninodes
      ensures n > 266 ==> Ind2(ino) in fs.role.Values
      ensures Reached(n) ==> Placed(ino, n)
      ensures n >= 266 && Placed(ino, n) ==> Ind2(ino) in fs.role.Values
      ensures n <= g.nblocks <= 8192
    {
      hide Mounted, IGet, HasBlocks, Ref;
      MountedBounds(Img(), g, nextinode, fs, ino, pending);
      BodyHas(Img(), g, fs.role, ino, n, content);
      PointersOwned(Img(), g, fs.role, Live(fs), ino, n);
      FewOwned(Img(), g, fs.role, Live(fs), ino, n);
      if n >= 266 && Placed(ino, n) {
        var c :| c in fs.role && fs.role[c] == Parent(Data(ino, n));
        assert Anchored(fs.role, Live(fs), fs.role[c]);
      }
    }

    lemma DeepPointer(ino: nat, n: nat, q: nat, pending: set<nat>)
      requires Inv(ino, pending) && ino in Live(fs) && 266 <= n < MAXFILEBLKS && Ind2(ino) in fs.role.Values && q == Ref(Img(), g, Ind2(ino))
      ensures q < g.nblocks && data.Length == g.nblocks * 1024 && q == IGet(Img(), g, ino, INDIRECT2) && q in fs.role && q != 0
      ensures U32(q, (n - 266) / 256) == Ref(Img(), g, Parent(Data(ino, n))) < g.nblocks
      ensures U32(q, (n - 266) / 256) == 0 <==> Parent(Data(ino, n)) !in fs.role.Values
    {
      hide Mounted, U32, Word, IGet, Ref;
      MountedBounds(Img(), g, nextinode, fs, ino, pending);
      IndirectExact(Img(), g, fs.role, Live(fs), ino, true);
      RefExact(Img(), g, fs.role, Live(fs), Ind2(ino));
      DeepExact(Img(), g, fs.role, Live(fs), ino, (n - 266) / 256);
      U32Is(q, (n - 266) / 256);
      WordOfBlock(Img(), q, (n - 266) / 256);
    }

    /** The branch of add_block under the doubly indirect block. The block finds its place exactly if
        the indirect block for it is there; one that is made now is never hooked up. */
    method AddDeep(ino: nat, n: nat, b: nat, ghost content: seq<byte>, ghost size: nat) returns (r: Outcome, ghost lost: set<nat>)
      requires Holding(ino, n, content, size, {b}) && 266 <= n < MAXFILEBLKS && g.firstdata <= b < g.nblocks && Img()[b] == ZERO
      modifies data, this`fs
      ensures r == Ok || r == NoSpace || r == Lost(0) || r == Dangling(0)
      ensures r.Ok? <==> old(Placed(ino, n))
      ensures r.Ok? ==> fs == old(fs).(role := fs.role) && Holding(ino, n + 1, content, size, {})
      ensures r.NoSpace? <==> !old(Placed(ino, n)) && !HasFree(old(Img()), 1)
      ensures r.NoSpace? ==> fs == old(fs) && Holding(ino, n, content, size, {}) && Img() == Marked(old(Img()), b)
      ensures !r.Lost? ==> lost == {}
      ensures r.Lost? ==> fs == old(fs).(role := fs.role) && IsLost(ino, n, content, size, lost)
      ensures r.Lost? <==> !old(Placed(ino, n)) && HasFree(old(Img()), old(Squandered(ino)) - 1)
      ensures r.Dangling? ==> n == 266 && Dangles(ino)
    {
      hide Mounted, Cleared, Marked, IsFree, LowOnly, SameData, U32, Body, IGet, HasFree, Owned, Ref, Field, SameUsed;
      lost := {};
      assert {b} - {b} == {};
      ghost var img := Img();
      MountedBounds(img, g, nextinode, fs, ino, {b});
      DeepParts(ino, n, content, size, {b});
      IndirectExact(img, g, fs.role, Live(fs), ino, true);
      FieldIs(ino, {b}, ino, INDIRECT2);
      var had := Field(ino, INDIRECT2) != 0;
      var indir2 := GetIndirect(ino, true, b, n, content, size);
      if indir2 == 0 {
        FreeBlock(b, ino, {b});
        OpenKept(img, Img(), g, fs.role, ino, n, content);
        SoManyFree(img, 1, 2);
        return NoSpace, {};
      }
      ghost var img1 := Img();
      DeepPointer(ino, n, indir2, {b});
      var indir := U32(indir2, (n - 266) / 256);
      if indir != 0 {
        AddIndirect(ino, n, b, indir, content, size);
        return Ok, {};
      }
      var x := NewBlock(ino, n, content, size, {b});
      if x == 0 {
        FreeBlock(b, ino, {b});
        OpenKept(img1, Img(), g, fs.role, ino, n, content);
        if had {
          return NoSpace, {};
        }
        MarkedExact(img1, b, b);
        InodeInTable(g, ino);
        SameField(img1, Img(), g, ino, INDIRECT2);
        FreeHooked(ino, indir2, {});
        return Dangling(0), {};
      }
      assert {b} + {x} == {b, x};
      LoseBlock(ino, n, b, x, content, size);
      return Lost(0), {b, x};
    }

    lemma SmallSize(size: nat)
      requires Nblocks(size) <= 8192
      ensures size <= 8192 * 1024
    {
    }

    /** add_block: one more empty block, or, exactly if there are not enough free blocks, no change to
        any block in use. Where the new block has no place, success means that it is lost. */
    method AddBlock(ino: nat, ghost content: seq<byte>, ghost size: nat) returns (r: Outcome, ghost lost: set<nat>)
      requires Holding(ino, Nblocks(size), content, size, {})
      modifies data, this`fs
      ensures r == Ok || r == NoSpace || r == Lost(0) || r == Dangling(0)
      ensures if old(Placed(ino, Nblocks(size))) then r.Ok? || r.NoSpace? else !r.Ok?
      ensures r.NoSpace? <==> !HasFree(old(Img()), old(Needed(ino, Nblocks(size))))
      ensures r.NoSpace? ==> fs == old(fs) && Holding(ino, Nblocks(size), content, size, {}) && SameUsed(old(Img()), Img())
      ensures r.NoSpace? ==> !HasFree(Img(), Needed(ino, Nblocks(size)))
      ensures r.Ok? ==> fs == old(fs).(role := fs.role) && Holding(ino, Nblocks(size) + 1, content, size + 1024, {})
      ensures r.Lost? ==> fs == old(fs).(role := fs.role) && IsLost(ino, Nblocks(size), content, size + 1024, lost)
      ensures r.Lost? <==> !old(Placed(ino, Nblocks(size))) && HasFree(old(Img()), old(Squandered(ino)))
      ensures r.Dangling? ==> Nblocks(size) == 266 && Dangles(ino)
    {
      hide Mounted, Cleared, Marked, IsFree, LowOnly, SameData, U32, Body, IGet, HasFree, Owned, Ref, Field, SameUsed, Img, BlocksOf, BlockOf, Nblocks, Size2Nblocks, Dangles;
      lost := {};
      ghost var img := Img();
      DeepParts(ino, Nblocks(size), content, size, {});
      SmallSize(size);
      Super(ino, {});
      MountedBounds(img, g, nextinode, fs, ino, {});
      FieldIs(ino, {}, ino, SIZE);
      var n := Size2Nblocks(Field(ino, SIZE));
      if n > MAXFILEBLKS {
        assert false;
      }
      SoManyFree(img, 1, Needed(ino, n));
      SoManyFree(img, Needed(ino, n), Squandered(ino));
      var b := NewBlock(ino, n, content, size, {});
      if b == 0 {
        SameUsedSelf(img);
        return NoSpace, {};
      }
      ghost var img1 := Img();
      BitmapAfter(img, b);
      OneLess(img, img1, b, 1);
      OneLess(img, img1, b, 2);
      assert {} + {b} == {b};
      r := Ok;
      if n < 10 {
        AddDirect(ino, n, b, content, size);
      } else if n < 266 {
        var ok := AddFar(ino, n, b, content, size);
        r := if ok then Ok else NoSpace;
      } else {
        r, lost := AddDeep(ino, n, b, content, size);
      }
      if r.NoSpace? {
        TakenAndGivenBack(img, Img(), b);
        SameHasFree(img, Img(), Needed(ino, n));
        return NoSpace, {};
      }
      if r.Dangling? {
        return r, {};
      }
      FieldIs(ino, lost, ino, SIZE);
      SetSize(ino, if r.Ok? then n + 1 else n, content, Field(ino, SIZE) + 1024, lost);
    }

    lemma OpenFile(ino: nat)
      requires Valid() && ino in fs.files
      ensures Holding(ino, Nblocks(|fs.files[ino]|), fs.files[ino], |fs.files[ino]|, {}) && |fs.files[ino]| <= MAXFILEBLKS * 1024
      ensures ino in Live(fs) && ino < g.ninodes
    {
      MountedOpen(Img(), g, nextinode, fs, ino);
      MountedBounds(Img(), g, nextinode, fs, -1, {});
      BodyFits(Img(), g, fs.role, ino, Nblocks(|fs.files[ino]|), fs.files[ino]);
      hide Mounted, Body, IGet;
    }

    method CloseFile(ino: nat, ghost content: seq<byte>)
      requires Holding(ino, Nblocks(|content|), content, |content|, {})
      modifies this`fs
      ensures Valid() && fs == old(fs).(files := old(fs).files[ino := content])
    {
      hide Mounted, Body, IGet;
      MountedClose(Img(), g, nextinode, fs, ino, content);
      fs := fs.(files := fs.files[ino := content]);
    }

    lemma SizeHeld(ino: nat, n: nat, content: seq<byte>, size: nat, pending: set<nat>)
      requires Holding(ino, n, content, size, pending)
      ensures 2048 <= data.Length && (U32(1, 3) + ino / 16 + 1) * 1024 <= data.Length && Field(ino, SIZE) == size
    {
      hide Mounted, Body, IGet, U32, Field;
      MountedBounds(Img(), g, nextinode, fs, ino, pending);
      FieldIs(ino, pending, ino, SIZE);
    }

    /** The end of change_size: the new length, and zeros in what has been added. */
    method SetLength(ino: nat, ghost content: seq<byte>, newSize: word, ghost size: nat)
      requires Holding(ino, Nblocks(newSize), content, size, {}) && |content| <= newSize
      modifies data, this`fs
      ensures Valid() && fs == old(fs).(files := old(fs).files[ino := Lengthened(content, newSize)])
    {
      hide Mounted, Body, IGet;
      BodyLengthened(Img(), g, fs.role, ino, Nblocks(newSize), content, newSize);
      SetSize(ino, Nblocks(newSize), Lengthened(content, newSize), newSize, {});
      CloseFile(ino, Lengthened(content, newSize));
    }

    /** change_size for a file that does not shrink. Either the file is lengthened by zeros, or the
        first new block cannot be had and nothing changes. The other outcomes describe the point at
        which the disk is full and the source starts to remove blocks again, or at which a block of
        the file, the first one without a place, is lost. */
    method ChangeSize(ino: nat, newSize: word) returns (r: Outcome, ghost lost: set<nat>)
      requires Valid() && ino in fs.files && |fs.files[ino]| <= newSize
      modifies data, this`fs
      ensures !r.IoError? && (r.Wrapped? <==> newSize + 1023 >= 0x1_0000_0000)
      ensures r.Wrapped? ==> Img() == old(Img()) && fs == old(fs)
      ensures r.Ok? ==> Valid() && fs == old(fs).(role := fs.role, files := old(fs).files[ino := Lengthened(old(fs).files[ino], newSize)])
      ensures r.NoSpace? ==> Valid() && fs == old(fs) && SameUsed(old(Img()), Img())
      ensures !r.Wrapped? ==> (r.NoSpace? <==> Nblocks(newSize) > old(Nblocks(|fs.files[ino]|)) && !HasFree(old(Img()), old(Needed(ino, Nblocks(|fs.files[ino]|)))))
      ensures AllReached(old(Nblocks(|fs.files[ino]|)), Nblocks(newSize)) ==> !r.Lost? && !r.Dangling?
      ensures old(!Placed(ino, Nblocks(|fs.files[ino]|))) && Nblocks(newSize) > old(Nblocks(|fs.files[ino]|)) && !r.Wrapped? ==>
                !r.Ok? && !r.PartlyGrown? && (r.Lost? <==> HasFree(old(Img()), old(Squandered(ino)))) && (r.Lost? || r.Dangling? ==> r.added == 0)
      ensures r.PartlyGrown? || r.Lost? || r.Dangling? ==> r.added < Nblocks(newSize) - old(Nblocks(|fs.files[ino]|))
      ensures r.PartlyGrown? ==> 0 < r.added && fs == old(fs).(role := fs.role)
      ensures r.PartlyGrown? ==> !HasFree(Img(), Needed(ino, old(Nblocks(|fs.files[ino]|)) + r.added))
      ensures r.PartlyGrown? ==> Holding(ino, old(Nblocks(|fs.files[ino]|)) + r.added, old(fs.files[ino]), old(|fs.files[ino]|) + 1024 * r.added, {})
      ensures r.Lost? ==> fs == old(fs).(role := fs.role) && !Reached(old(Nblocks(|fs.files[ino]|)) + r.added)
      ensures r.Lost? ==> IsLost(ino, old(Nblocks(|fs.files[ino]|)) + r.added, old(fs.files[ino]), old(|fs.files[ino]|) + 1024 * (r.added + 1), lost)
      ensures r.Dangling? ==> old(Nblocks(|fs.files[ino]|)) + r.added == 266 && Dangles(ino)
    {
      hide Mounted, Body, IGet, HasFree, SameUsed, U32, Field, Ref, Dangles, Holding, IsLost, Inv, Img, BlocksOf, BlockOf, SameUsed, Placed, Lengthened, Squandered;
      lost := {};
      OpenFile(ino);
      ghost var content := fs.files[ino];
      ghost var n := Nblocks(|content|);
      var added := 0;
      ghost var size := |content|;
      SizeHeld(ino, n, content, size, {});
      if newSize + 1023 >= 0x1_0000_0000 {
        return Wrapped, {};
      }
      while Size2Nblocks(Field(ino, SIZE)) < Size2Nblocks(newSize)
        invariant size == |content| + 1024 * added && Holding(ino, Nblocks(size), content, size, {})
        invariant n + added == Nblocks(size) <= Nblocks(newSize) && fs == old(fs).(role := fs.role)
        invariant 2048 <= data.Length && (U32(1, 3) + ino / 16 + 1) * 1024 <= data.Length && Field(ino, SIZE) == size
        invariant added == 0 ==> Img() == old(Img()) && fs == old(fs)
        invariant added > 0 ==> HasFree(old(Img()), old(Needed(ino, Nblocks(|fs.files[ino]|)))) && old(Placed(ino, Nblocks(|fs.files[ino]|)))
        decreases Nblocks(newSize) - Nblocks(size)
      {
        DeepParts(ino, Nblocks(size), content, size, {});
        var status;
        status, lost := AddBlock(ino, content, size);
        if status.NoSpace? {
          if added == 0 {
            CloseFile(ino, content);
            assert old(fs).files[ino := content] == old(fs).files;
            return NoSpace, {};
          }
          return PartlyGrown(added), {};
        } else if status.Lost? {
          return Lost(added), lost;
        } else if status.Dangling? {
          return Dangling(added), {};
        }
        added := added + 1;
        size := size + 1024;
        SizeHeld(ino, Nblocks(size), content, size, {});
      }
      SetLength(ino, content, newSize, size);
      return Ok, {};
    }

    // -------------------------------------------------------------- ospfs_read, ospfs_write

    lemma HeldBlock(ino: nat, n: nat, content: seq<byte>, size: nat, p: nat)
      requires Holding(ino, n, content, size, {}) && size <= n * 1024 && p < size
      ensures Data(ino, p / 1024) in fs.role.Values && p / 1024 < n && ino in Live(fs) && ino < g.ninodes
      ensures g.firstdata <= Ref(Img(), g, Data(ino, p / 1024)) < g.nblocks && 2 < g.firstdata && |Img()| == g.nblocks
    {
      hide Mounted, IGet, Ref, ByteOf;
      MountedBounds(Img(), g, nextinode, fs, ino, {});
      DataRef(Img(), g, fs.role, Live(fs), ino, p / 1024);
    }

    /** The bytes that copy_to_user takes out of one block. */
    function CopyOut(b: nat, off: nat, n: nat): (r: seq<byte>)
      reads data
      requires off + n <= 1024 && (b + 1) * 1024 <= data.Length
      ensures |r| == n
    {
      data[b * 1024 + off..b * 1024 + off + n]
    }

    lemma CopyOutIs(b: nat, off: nat, n: nat)
      requires off + n <= 1024 && (b + 1) * 1024 <= data.Length
      ensures b < |Img()| && CopyOut(b, off, n) == Img()[b][off..off + n]
    {
      var blk := Img()[b];
      forall x: nat | x < n
        ensures CopyOut(b, off, n)[x] == blk[off + x]
      {
        assert blk[off + x] == data[b * 1024 + off + x];
      }
    }

    /** ospfs_read: from a position in the file, the bytes from there on, as many as were asked
        for or are left; from a position past the end, an error. */
    method Read(ino: nat, count: word, fpos: word) returns (retval: int, out: seq<byte>, fpos': nat)
      requires Valid() && ino in fs.files
      ensures fpos <= |fs.files[ino]| ==> retval == if count + fpos > |fs.files[ino]| then |fs.files[ino]| - fpos else count
      ensures fpos <= |fs.files[ino]| ==> fpos' == fpos + retval <= |fs.files[ino]| && out == fs.files[ino][fpos..fpos']
      ensures fpos > |fs.files[ino]| ==> retval == -5 && out == [] && fpos' == fpos
    {
      hide Mounted, Body, IGet, U32, Field, Ref, CopyOut;
      OpenFile(ino);
      ghost var content := fs.files[ino];
      ghost var n := Nblocks(|content|);
      FieldIs(-1, {}, ino, SIZE);
      var todo := count;
      if count + fpos > Field(ino, SIZE) {
        todo := (Field(ino, SIZE) - fpos) % 0x1_0000_0000;
      }
      var amount := 0;
      fpos' := fpos;
      out := [];
      while amount < todo
        invariant amount <= todo && fpos' == fpos + amount && (fpos > |content| ==> amount == 0 && out == [])
        invariant fpos <= |content| ==> fpos' <= fpos + todo <= |content| && out == content[fpos..fpos']
        decreases todo - amount
      {
        if fpos' < |content| {
          HeldBlock(ino, n, content, |content|, fpos');
        }
        var blockno := InodeBlockno(ino, fpos', ino);
        if blockno == 0 {
          return -EIO, out, fpos';
        }
        var offset := fpos' % 1024;
        var m := if todo - amount > 1024 - offset then 1024 - offset else todo - amount;
        ChunkOf(Img(), g, fs.role, ino, n, content, fpos', m);
        CopyOutIs(blockno, offset, m);
        out := out + CopyOut(blockno, offset, m);
        Adjoining(content, fpos, fpos', fpos' + m);
        amount := amount + m;
        fpos' := fpos' + m;
      }
      retval := amount;
    }

    /** The loop of ospfs_write, block by block, over a file that is long enough. There is a
        block for every byte, so that it never ends in an I/O error. */
    method WriteLoop(ino: nat, buffer: seq<byte>, fpos: word, ghost content: seq<byte>) returns (amount: nat, fpos': nat)
      requires Holding(ino, Nblocks(|content|), content, |content|, {}) && fpos + |buffer| <= |content|
      modifies data
      ensures amount == |buffer| && fpos' == fpos + |buffer|
      ensures Holding(ino, Nblocks(|content|), Splice(content, fpos, buffer), |content|, {})
    {
      hide Mounted, Body, IGet, U32, Field, Ref;
      amount := 0;
      fpos' := fpos;
      ghost var done := content;
      while amount < |buffer|
        invariant amount <= |buffer| && fpos' == fpos + amount && done == Splice(content, fpos, buffer[..amount])
        invariant Holding(ino, Nblocks(|content|), done, |content|, {})
      {
        HeldBlock(ino, Nblocks(|content|), done, |content|, fpos');
        var blockno := InodeBlockno(ino, fpos', ino);
        if blockno == 0 {
          assert false;
        }
        var offset := fpos' % 1024;
        var n := if |buffer| - amount > 1024 - offset then 1024 - offset else |buffer| - amount;
        ghost var chunk := buffer[amount..amount + n];
        DataOverwritten(Img(), g, nextinode, fs, ino, Nblocks(|content|), done, fpos' / 1024, offset, chunk);
        CopyIn(blockno, offset, buffer[amount..amount + n]);
        assert fpos' / 1024 * 1024 + offset == fpos';
        done := Splice(done, fpos', chunk);
        assert done == Splice(content, fpos, buffer[..amount + n]);
        amount := amount + n;
        fpos' := fpos' + n;
      }
      assert buffer[..|buffer|] == buffer;
    }

    /** ospfs_write: the bytes replace exactly their range of the file, which grows as needed,
        and no other file or directory changes. The outcomes without success are those of
        change_size. */
    method Write(ino: nat, append: bool, buffer: seq<byte>, fpos: word) returns (retval: int, fpos': nat, r: Outcome, ghost lost: set<nat>)
      requires Valid() && ino in fs.files && fpos + |buffer| < 0x1_0000_0000 && |fs.files[ino]| + |buffer| < 0x1_0000_0000
      modifies data, this`fs
      ensures !r.IoError? && (r.Ok? ==> retval >= 0) && (r.NoSpace? || r.PartlyGrown? || r.Dangling? ==> retval == -28)
      ensures r.Ok? ==> Valid() && retval == |buffer| && fpos' == (if append then old(|fs.files[ino]|) else fpos) + |buffer|
      ensures r.Ok? ==> fs == old(fs).(role := fs.role, files := old(fs).files[ino := Written(old(fs).files[ino], if append then old(|fs.files[ino]|) else fpos, buffer)])
      ensures r.NoSpace? ==> Valid() && fs == old(fs) && SameUsed(old(Img()), Img())
      ensures r.Wrapped? <==> (if append then old(|fs.files[ino]|) else fpos) + |buffer| > old(|fs.files[ino]|) && (if append then old(|fs.files[ino]|) else fpos) + |buffer| + 1023 >= 0x1_0000_0000
      ensures !r.Wrapped? ==> (r.NoSpace? <==> Nblocks((if append then old(|fs.files[ino]|) else fpos) + |buffer|) > old(Nblocks(|fs.files[ino]|)) &&
                                               !HasFree(old(Img()), old(Needed(ino, Nblocks(|fs.files[ino]|)))))
      ensures AllReached(old(Nblocks(|fs.files[ino]|)), Nblocks((if append then old(|fs.files[ino]|) else fpos) + |buffer|)) ==> !r.Lost? && !r.Dangling?
      ensures old(!Placed(ino, Nblocks(|fs.files[ino]|))) && Nblocks((if append then old(|fs.files[ino]|) else fpos) + |buffer|) > old(Nblocks(|fs.files[ino]|)) ==>
                r.Wrapped? || (!r.Ok? && !r.PartlyGrown? && (r.Lost? <==> HasFree(old(Img()), old(Squandered(ino)))) && (r.Lost? || r.Dangling? ==> r.added == 0))
      ensures r.PartlyGrown? ==> 0 < r.added && !HasFree(Img(), Needed(ino, old(Nblocks(|fs.files[ino]|)) + r.added))
      ensures r.PartlyGrown? || r.Lost? ==> fs == old(fs).(role := fs.role)
      ensures r.PartlyGrown? ==> Holding(ino, old(Nblocks(|fs.files[ino]|)) + r.added, old(fs.files[ino]), old(|fs.files[ino]|) + 1024 * r.added, {})
      ensures r.Lost? ==> !Reached(old(Nblocks(|fs.files[ino]|)) + r.added)
      ensures r.Lost? ==> IsLost(ino, old(Nblocks(|fs.files[ino]|)) + r.added, old(fs.files[ino]), old(|fs.files[ino]|) + 1024 * (r.added + 1), lost)
      ensures r.Dangling? ==> Dangles(ino)
    {
      hide Mounted, Body, IGet, U32, Field, Ref, HasFree, SameUsed, Needed, Placed, IsLost, Dangles, Squandered;
      lost := {};
      OpenFile(ino);
      FieldIs(-1, {}, ino, SIZE);
      fpos' := fpos;
      if append {
        fpos' := Field(ino, SIZE);
      }
      ghost var at := fpos';
      ghost var content := Lengthened(fs.files[ino], fpos' + |buffer|);
      if |buffer| + fpos' > Field(ino, SIZE) {
        r, lost := ChangeSize(ino, |buffer| + fpos');
        if !r.Ok? {
          return -ENOSPC, fpos', r, lost;
        }
        OpenFile(ino);
      }
      retval, fpos' := WriteLoop(ino, buffer, fpos', content);
      assert Splice(content, at, buffer) == Written(old(fs).files[ino], at, buffer);
      CloseFile(ino, Splice(content, at, buffer));
      r := Ok;
    }

    // -------------------------------------------------------------- names and inodes

    /** strlen and memcmp of find_direntry: the name of entry q of a block against a given one. */
    method NameIs(b: nat, q: nat, name: seq<byte>, ghost stored: seq<byte>) returns (same: bool)
      requires (b + 1) * 1024 <= data.Length && q < 8 && NameAt(BlockOf(data[..], b), q, stored) && 0 !in stored
      ensures same <==> name == stored
    {
      var at := b * 1024 + q * 128 + 4;
      ghost var blk := BlockOf(data[..], b);
      forall x: nat | x < |stored|
        ensures stored[x] != 0
      {
        assert stored[x] in stored;
      }
      ghost var c := stored + [0];
      forall x: nat | x <= |stored|
        ensures data[at + x] == c[x]
      {
        assert blk[q * 128 + 4 + x] == data[at + x];
      }
      var len := 0;
      while data[at + len] != 0
        invariant len <= |stored|
        decreases |stored| - len
      {
        len := len + 1;
      }
      assert c[len] == 0;
      if len != |name| {
        return false;
      }
      var x := 0;
      while x < len
        invariant x <= len && name[..x] == stored[..x]
      {
        if data[at + x] != name[x] {
          return false;
        }
        x := x + 1;
      }
      assert name[..len] == name && stored[..len] == stored;
      return true;
    }

    lemma EntryHere(d: nat, p: nat)
      requires Valid() && d in fs.dirs && p < IGet(Img(), g, d, SIZE) / 1024 * 8
      ensures Data(d, p / 8) in fs.role.Values && 0 < Ref(Img(), g, Data(d, p / 8)) < g.nblocks
      ensures data.Length == g.nblocks * 1024
      ensures U32(Ref(Img(), g, Data(d, p / 8)), p % 8 * 32) == if p < |Entries(fs.log, d)| then Entries(fs.log, d)[p].ino else 0
      ensures p < |Entries(fs.log, d)| ==> Entries(fs.log, d)[p].ino != 0 && 0 !in Entries(fs.log, d)[p].name
      ensures p < |Entries(fs.log, d)| ==> NameAt(BlockOf(data[..], Ref(Img(), g, Data(d, p / 8))), p % 8, Entries(fs.log, d)[p].name)
    {
      hide Mounted, IGet, U32, Ref, NameAt, Entries, Word;
      Super(-1, {});
      EntryPlace(Img(), g, nextinode, fs, d, p);
      U32Is(Ref(Img(), g, Data(d, p / 8)), p % 8 * 32);
      WordOfBlock(Img(), Ref(Img(), g, Data(d, p / 8)), p % 8 * 32);
    }

    /** The test of find_direntry on the entry at an offset into a directory. */
    method EntryIs(d: nat, off: word, name: seq<byte>, ghost p: nat) returns (same: bool, ino: nat)
      requires Valid() && d in fs.dirs && off == p * 128 && p < IGet(Img(), g, d, SIZE) / 1024 * 8
      ensures same <==> p < |Entries(fs.log, d)| && Entries(fs.log, d)[p].name == name
      ensures same ==> Entries(fs.log, d)[p].ino == ino
    {
      hide Mounted, IGet, U32, Ref, NameAt, Entries, DirBody;
      ghost var ents := Entries(fs.log, d);
      DirectoryFacts(Img(), g, nextinode, fs, d);
      EntryHere(d, p);
      OffsetOf(p);
      var blockno := InodeBlockno(d, off, -1);
      ino := U32(blockno, off % 1024 / 4);
      same := false;
      if ino != 0 {
        same := NameIs(blockno, off % 1024 / 128, name, ents[p].name);
      }
    }

    /** find_direntry: the first entry of the directory with this name, if there is one. */
    method FindDirentry(d: nat, name: seq<byte>) returns (found: bool, ino: nat, ghost p: nat)
      requires Valid() && d in fs.dirs
      ensures found <==> exists e :: e in Entries(fs.log, d) && e.name == name
      ensures found ==> p < |Entries(fs.log, d)| && Entries(fs.log, d)[p] == Entry(ino, name)
      ensures found ==> forall q :: 0 <= q < p ==> Entries(fs.log, d)[q].name != name
    {
      hide Mounted, IGet, U32, Field, Ref, NameAt, Entries, DirBody;
      ghost var ents := Entries(fs.log, d);
      DirectoryFacts(Img(), g, nextinode, fs, d);
      FieldIs(-1, {}, d, SIZE);
      var off := 0;
      p, ino := 0, 0;
      while off < Field(d, SIZE)
        invariant off == p * 128 && p <= IGet(Img(), g, d, SIZE) / 1024 * 8
        invariant forall q :: 0 <= q < p && q < |ents| ==> ents[q].name != name
      {
        var same;
        same, ino := EntryIs(d, off, name, p);
        if same {
          return true, ino, p;
        }
        off := off + 128;
        p := p + 1;
      }
      found := false;
    }

    /** find_free_inode: the first inode from 2 on without a link, or 0. */
    method FindFreeInode() returns (i: nat)
      requires Valid()
      ensures i == 0 <==> forall j: nat :: 2 <= j < g.ninodes ==> IGet(Img(), g, j, NLINK) != 0
      ensures i != 0 ==> 2 <= i < g.ninodes && IGet(Img(), g, i, NLINK) == 0 && forall j: nat :: 2 <= j < i ==> IGet(Img(), g, j, NLINK) != 0
    {
      hide Mounted, IGet, U32, Field;
      Super(-1, {});
      i := 2;
      while i < U32(1, 2)
        invariant i >= 2 && forall j: nat :: 2 <= j < i ==> IGet(Img(), g, j, NLINK) != 0
        decreases g.ninodes - i
      {
        FieldIs(-1, {}, i, NLINK);
        if Field(i, NLINK) == 0 {
          return;
        }
        i := i + 1;
      }
      i := 0;
    }
  }

  lemma SetWordIs(b: Block, w: nat, v: word)
    requires w < 256
    ensures SetWord(b, w, v)[4 * w] == v % 256 && SetWord(b, w, v)[4 * w + 1] == v / 256 % 256
    ensures SetWord(b, w, v)[4 * w + 2] == v / 0x1_0000 % 256 && SetWord(b, w, v)[4 * w + 3] == v / 0x100_0000
  {
  }

  lemma Adjoining(s: seq<byte>, i: nat, j: nat, k: nat)
    requires i <= j <= k <= |s|
    ensures s[i..j] + s[j..k] == s[i..k]
  {
  }

  lemma DirectRef(img: Image, g: Geometry, i: nat, k: nat)
    requires k < 10
    ensures Ref(img, g, Data(i, k)) == IGet(img, g, i, DIRECT + k)
  {
  }

  lemma LowNotFree(img: Image, g: Geometry, nextinode: nat, fs: Fs, open: int, pending: set<nat>)
    requires Mounted(img, g, nextinode, fs, open, pending)
    ensures forall j: nat :: j < 8192 && (j < 3 || j >= g.nblocks) ==> !IsFree(img, j)
  {
    hide FilesOk, DirsOk, LinksOk, InodesOk, SuperOk, IsFree;
  }

  lemma PendingNotFree(img: Image, g: Geometry, nextinode: nat, fs: Fs, open: int, pending: set<nat>, b: nat)
    requires Mounted(img, g, nextinode, fs, open, pending) && b in pending
    ensures b < 8192 && !IsFree(img, b)
  {
    hide FilesOk, DirsOk, LinksOk, InodesOk, SuperOk, IsFree;
  }

  lemma FirstStays(img: Image, img': Image, p: nat, b: nat)
    requires 2 < b < |img| && p < |img| && p < 8192 && FREEMAP_BLK < |img| && b != p && img' == Cleared(img, p)[p := ZERO]
    ensures img'[b] == img[b]
  {
    ClearedExact(img, p, p);
    hide Cleared, IsFree;
  }

  lemma TakenForTop(img: Image, img': Image, g: Geometry, i: nat, f: nat, p: nat)
    requires ValidGeometry(g) && |img| == g.nblocks && i < g.ninodes && f < 16 && p < 8192 && g.firstdata <= p < |img| && IsFree(img, p)
    requires img' == ISet(Cleared(img, p)[p := ZERO], g, i, f, p)
    ensures HasFree(img', 1) <==> HasFree(img, 2)
  {
    InodeInTable(g, i);
    hide IsFree, Cleared, HasFree;
    OneLess(img, img', p, 1);
  }

  lemma InodeStaysAway(img: Image, g: Geometry, i: nat, f: nat, v: word, b: nat)
    requires ValidGeometry(g) && |img| == g.nblocks && i < g.ninodes && f < 16 && g.firstdata <= b < |img|
    ensures ISet(img, g, i, f, v)[b] == img[b]
  {
    InodeInTable(g, i);
  }

  lemma BitmapAfter(img: Image, b: nat)
    requires 2 < b < |img|
    ensures Cleared(img, b)[b := ZERO][FREEMAP_BLK] == Cleared(img, b)[FREEMAP_BLK] && Cleared(img, b)[b := ZERO][b] == ZERO
  {
  }

  lemma SoManyFree(img: Image, k: nat, n: nat)
    requires k <= n
    ensures HasFree(img, n) ==> HasFree(img, k)
  {
    hide IsFree;
  }

  lemma NextAnchored(img: Image, g: Geometry, role: Roles, live: set<nat>, i: nat, n: nat, content: seq<byte>)
    requires Body(img, g, role, i, n, content) && i in live && n < MAXFILEBLKS && (n < 10 || Parent(Data(i, n)) in role.Values)
    ensures HasBlocks(role, i, n) && Anchored(role, live, Data(i, n))
  {
  }

  lemma HookIs(img: Image, g: Geometry, i: nat, n: nat, b: word)
    requires 10 <= n < MAXFILEBLKS
    ensures Hook(img, g, Data(i, n), b) == SetWordAt(img, Ref(img, g, Parent(Data(i, n))), DirectIndex(n), b) && DirectIndex(n) < 256
  {
    hide Word, SetWord;
    assert n >= 266 ==> (n - 10) % 256 == (n - 266) % 256;
  }

  lemma GrownBody(img: Image, img': Image, g: Geometry, role: Roles, role': Roles, i: nat, n: nat, b: nat, content: seq<byte>)
    requires Grown(img, img', g, role, role', i, n, b) && Body(img, g, role, i, n, content) && img[b] == ZERO
    ensures Body(img', g, role', i, n + 1, content)
    ensures IGet(img', g, i, SIZE) == IGet(img, g, i, SIZE) && IGet(img', g, i, FTYPE) == IGet(img, g, i, FTYPE)
  {
    BodyGrownZero(img, img', g, role, role', i, n, b, content);
    GrownKeeps(img, img', g, role, role', i, n, b);
  }

  lemma WholeBlocks(n: nat, b: nat)
    requires b < n
    ensures n * 1024 % 1024 == 0 && (b + 1) * 1024 <= n * 1024
  {
  }

  lemma BodyFits(img: Image, g: Geometry, role: Roles, i: nat, n: nat, content: seq<byte>)
    requires Body(img, g, role, i, n, content)
    ensures |content| <= MAXFILEBLKS * 1024 && n <= MAXFILEBLKS
  {
  }

  lemma WordOfBlock(img: Image, b: nat, w: nat)
    requires b < |img| && w < 256
    ensures WordAt(img, b, w) == Word(img[b], w)
  {
  }

  lemma DirectoryFacts(img: Image, g: Geometry, nextinode: nat, fs: Fs, d: nat)
    requires Mounted(img, g, nextinode, fs, -1, {}) && d in fs.dirs
    ensures d < g.ninodes && IGet(img, g, d, SIZE) % 1024 == 0 && IGet(img, g, d, FTYPE) == FTYPE_DIR
    ensures DirBody(img, g, fs.role, d, IGet(img, g, d, SIZE) / 1024, Entries(fs.log, d))
    ensures |Entries(fs.log, d)| <= IGet(img, g, d, SIZE) / 1024 * 8
  {
    hide Owned, FilesOk, LinksOk, FreeOk, SuperOk, IGet, Entries, EntryOk, HasBlocks;
    assert DirOk(img, g, fs.role, d, Entries(fs.log, d));
    assert d in Live(fs);
    MountedBounds(img, g, nextinode, fs, -1, {});
  }

  /** Where entry p of a directory is, and what is there. */
  lemma EntryPlace(img: Image, g: Geometry, nextinode: nat, fs: Fs, d: nat, p: nat)
    requires Mounted(img, g, nextinode, fs, -1, {}) && d in fs.dirs && p < IGet(img, g, d, SIZE) / 1024 * 8
    ensures Data(d, p / 8) in fs.role.Values && g.firstdata <= Ref(img, g, Data(d, p / 8)) < |img|
    ensures Word(img[Ref(img, g, Data(d, p / 8))], p % 8 * 32) != 0 <==> p < |Entries(fs.log, d)|
    ensures p < |Entries(fs.log, d)| ==> Word(img[Ref(img, g, Data(d, p / 8))], p % 8 * 32) == Entries(fs.log, d)[p].ino
    ensures p < |Entries(fs.log, d)| ==> NameAt(img[Ref(img, g, Data(d, p / 8))], p % 8, Entries(fs.log, d)[p].name) && 0 !in Entries(fs.log, d)[p].name
  {
    hide Mounted, Owned, Ref, IGet, Word, Entries, NameAt;
    var ents := Entries(fs.log, d);
    DirectoryFacts(img, g, nextinode, fs, d);
    MountedBounds(img, g, nextinode, fs, -1, {});
    EntryHome(img, g, fs.role, Live(fs), d, IGet(img, g, d, SIZE) / 1024, ents, p);
    DataRef(img, g, fs.role, Live(fs), d, p / 8);
    if p < |ents| {
      assert EntryOk(img, g, d, p, ents[p]);
    } else {
      assert EntryIno(img, g, d, p) == 0;
    }
  }

  lemma OffsetOf(p: nat)
    ensures p * 128 / 1024 == p / 8 && p * 128 % 1024 == p % 8 * 128
    ensures p * 128 % 1024 / 4 == p % 8 * 32 && p * 128 % 1024 / 128 == p % 8
  {
  }
}
