/** The whole run of ospfsformat (lab3/ospfsformat.c: opendisk, finishfs, flushdisk, main), and
    what the finished image is. */
module OspfsImage {
  import opened OspfsLayout
  import opened OspfsContents
  import opened OspfsBits
  import opened BlockCache
  import opened OspfsFs
  import opened OspfsCosts
  import opened OspfsSteps
  import opened OspfsFormat
  import opened OspfsEntry
  import opened OspfsHost
  import opened OspfsWrite

  const ROOT_INO := 1
  const MAGIC := 0x013101AE

  /** The arguments that main accepts. */
  predicate ValidArguments(nblocks: nat, ninodes: nat) {
    2 <= nblocks <= 8192 && 2 <= ninodes && ninodes < nblocks - 2 - nblocks / 8192
  }

  ghost predicate NoPins(slots: Slots) {
    forall i :: 0 <= i < |slots| ==> slots[i].busy == 0
  }

  lemma KeptNoPins(a: Slots, b: Slots)
    requires NoPins(a) && SamePins(a, b)
    ensures NoPins(b)
  {
  }

  lemma ArgumentsFit(nblocks: nat, ninodes: nat)
    requires ValidArguments(nblocks, ninodes)
    ensures ValidGeometry(GeometryOf(nblocks, ninodes)) && GeometryOf(nblocks, ninodes).firstinob == 3
  {
  }

  // ---------------------------------------------------------------- opendisk

  /** The image of opendisk: all zeros but for the bitmap. */
  ghost predicate Blank(img: Image, g: Geometry, n: nat) {
    |img| == g.nblocks && forall b: nat :: b < |img| ==> img[b] == if FREEMAP_BLK <= b < FREEMAP_BLK + n then ONES else ZERO
  }

  function EmptyFs(): Fs {
    Fs(map[], map[], {}, map[], [])
  }

  lemma BlankTree(img: Image, g: Geometry)
    requires ValidGeometry(g) && Blank(img, g, g.firstinob - FREEMAP_BLK)
    ensures FsCore(img, g, g.firstdata, 0, EmptyFs(), -1, {})
    ensures NlinksOk(img, g, EmptyFs())
  {
    forall i: nat | i < g.ninodes
      ensures BlankInode(img, g, i)
    {
      InodeInTable(g, i);
    }
    hide BlankInode;
  }

  /** One block of opendisk: pinned, filled and released. */
  method InitBlock(f: Formatter, b: nat, ty: BlockType, data: Block)
    requires f.c.Valid() && NoPins(f.c.slots) && 1 <= b < f.c.nblocks
    modifies f.c
    ensures f.c.Valid() && NoPins(f.c.slots)
    ensures f.c.Contents() == old(f.c.Contents())[b := data]
  {
    var r := f.c.GetBlk(b, ty == InodesBlock, ty);
    f.c.Store(r.slot, data);
    f.c.PutBlk(r.slot);
  }

  method OpenDisk(f: Formatter)
    requires f.c.Valid() && f.c.nblocks == f.g.nblocks && ValidGeometry(f.g) && NoPins(f.c.slots)
    requires f.c.Contents() == seq(f.g.nblocks, _ => ZERO) && f.hardlinks == []
    modifies f`nextb, f`nextinode, f`fs, f.c
    ensures f.Inv(-1, NONE) && NoPins(f.c.slots) && f.fs == EmptyFs() && f.nextinode == 0
    ensures f.nextb == f.g.firstdata && NlinksOk(f.c.Contents(), f.g, f.fs)
  {
    var nbitblock := f.g.firstinob - FREEMAP_BLK;
    var i := 0;
    while i < nbitblock
      invariant i <= nbitblock && f.c.Valid() && NoPins(f.c.slots) && Blank(f.c.Contents(), f.g, i)
    {
      InitBlock(f, FREEMAP_BLK + i, BitsBlock, ONES);
      i := i + 1;
    }
    i := 0;
    while i < f.g.firstdata - f.g.firstinob
      invariant f.c.Valid() && NoPins(f.c.slots) && Blank(f.c.Contents(), f.g, nbitblock)
    {
      InitBlock(f, f.g.firstinob + i, InodesBlock, ZERO);
      i := i + 1;
    }
    BlankTree(f.c.Contents(), f.g);
    hide FsCore, NlinksOk;
    f.nextb, f.nextinode, f.fs := f.g.firstdata, 0, EmptyFs();
    assert NONE.Keys == {};
  }

  // ---------------------------------------------------------------- the first two inodes

  /** allocinode outside a directory, and oi_nlink = 1. */
  method AllocFirst(f: Formatter) returns (r: Status, x: nat, inob: nat)
    requires f.Inv(-1, NONE) && f.nextinode < f.g.ninodes && f.fs.log == []
    modifies f`nextinode, f`fs, f.c
    ensures f.c.Valid() && x == old(f.nextinode) && (r.Aborted? ==> Short(old(f.c.slots), 1))
    ensures r.Done? ==> f.Inv(-1, NONE) && f.nextinode == x + 1 && f.Pins(inob, InodeBlock(f.g, x)) && NoBlocks(f.fs.role, x)
    ensures r.Done? ==> f.fs == old(f.fs).(files := old(f.fs).files[x := []])
    ensures r.Done? ==> NlinksKept(old(f.c.Contents()), f.c.Contents(), f.g, x) && IGet(f.c.Contents(), f.g, x, NLINK) == 1
    ensures r.Done? ==> SamePins(old(f.c.slots), Unpin(f.c.slots, inob))
  {
    hide FsCore, SamePins, Unpin, PinsOk, NlinksKept, NoBlocks, IGet, Short;
    assert NONE.Keys == {};
    ghost var img, slots := f.c.Contents(), f.c.slots;
    x, inob := f.nextinode, 0;
    FsNewInode(img, f.g, f.nextb, f.nextinode, f.fs, -1, {});
    NewInodeNoBlocks(img, f.g, f.nextb, f.nextinode, f.fs, -1, {});
    f.nextinode := f.nextinode + 1;
    f.fs := f.fs.(files := f.fs.files[x := []]);
    SameTypes(f.c.slots, f.g, f.nextb, old(f.fs), f.fs, NONE);
    var res := GetInode(f, x);
    if !res.Got? {
      return Aborted(CacheExhausted), x, 0;
    }
    inob := res.slot;
    ghost var slots1 := f.c.slots;
    SetNlink(f, x, inob, 1);
    PinsNest(slots, slots1, f.c.slots, inob);
    StillBusy(slots1, f.c.slots, inob);
    return Done, x, inob;
  }

  /** The file system that a run starts from: inode 0 is reserved, inode 1 is the root. */
  function RootFs(): Built {
    Built(Fs(map[], map[0 := []], {ROOT_INO}, map[], []), 2, [])
  }

  lemma RootCounts(img: Image, g: Geometry, fs: Fs)
    requires fs.files.Keys == {0} && fs.dirs == {ROOT_INO} && fs.links.Keys == {} && fs.log == []
    requires IGet(img, g, ROOT_INO, NLINK) == 1
    ensures NlinksOk(img, g, fs)
  {
    hide IGet;
  }

  lemma NotShort(slots: Slots, m: nat)
    requires NoPins(slots) && m <= NSLOTS
    ensures !Short(slots, m)
  {
    NoneAreShort(slots);
  }

  /** The two inodes that main takes first; there is always a slot for their block. */
  method MakeRoot(f: Formatter) returns (rootinob: nat)
    requires f.Inv(-1, NONE) && f.fs == EmptyFs() && f.nextinode == 0 && f.hardlinks == [] && 2 <= f.g.ninodes && NoPins(f.c.slots)
    modifies f`nextinode, f`fs, f.c
    ensures Sound(f) && Run(f) == RootFs() && f.Pins(rootinob, InodeBlock(f.g, ROOT_INO))
    ensures SamePins(old(f.c.slots), Unpin(f.c.slots, rootinob))
  {
    hide FsCore, SamePins, Unpin, PinsOk, NlinksKept, NoBlocks, IGet, Short;
    assert NONE.Keys == {};
    ghost var slots := f.c.slots;
    NotShort(slots, 1);
    var r, x;
    r, x, rootinob := AllocFirst(f);
    ReleaseOnly(f, slots, rootinob);
    ghost var slots1 := f.c.slots;
    KeptNoPins(slots, slots1);
    NotShort(slots1, 1);
    r, x, rootinob := AllocFirst(f);
    ghost var img2, slots2 := f.c.Contents(), f.c.slots;
    SetFtypeDir(f, x, rootinob);
    NlinkOf(img2, f.c.Contents(), f.g, x);
    PinsNest(slots1, slots2, f.c.slots, rootinob);
    PinsNestFirst(slots, slots1, f.c.slots, rootinob);
    assert f.fs.files == map[0 := []];
    RootCounts(f.c.Contents(), f.g, f.fs);
  }

  method ReleaseOnly(f: Formatter, ghost slots: Slots, s: nat)
    requires f.Inv(-1, NONE) && s < NSLOTS && f.c.slots[s].busy > 0 && SamePins(slots, Unpin(f.c.slots, s))
    modifies f.c`slots
    ensures f.Inv(-1, NONE) && f.c.Contents() == old(f.c.Contents()) && SamePins(slots, f.c.slots)
  {
    hide FsCore, PinsOk, Unpin;
    f.Release(s, -1, NONE);
  }

  // ---------------------------------------------------------------- finishfs

  /** The free blocks are those from lo up to hi. */
  ghost predicate FreeExactly(img: Image, lo: nat, hi: nat) {
    forall i: nat :: i < 8192 ==> (IsFree(img, i) <==> lo <= i < hi)
  }

  ghost predicate SuperOk(b: Block, g: Geometry) {
    Word(b, 0) == MAGIC && Word(b, 1) == g.nblocks && Word(b, 2) == g.ninodes && Word(b, 3) == g.firstinob
  }

  function SuperBlockOf(g: Geometry): Block
    requires ValidGeometry(g)
  {
    SetWord(SetWord(SetWord(SetWord(ZERO, 0, MAGIC), 1, g.nblocks), 2, g.ninodes), 3, g.firstinob)
  }

  /** A finished image: everything the run has put there, with exact link counts, the free
      blocks exactly those that were never handed out, and the superblock. */
  ghost predicate Formatted(img: Image, g: Geometry, nextb: nat, nextinode: nat, fs: Fs) {
    && FsTree(img, g, nextb, nextinode, fs, -1, {}) && NlinksOk(img, g, fs)
    && FreeExactly(img, nextb, g.nblocks) && 2 < |img| && SuperOk(img[1], g)
  }

  lemma OnesAreFree(img: Image, i: nat)
    requires FREEMAP_BLK < |img| && img[FREEMAP_BLK] == ONES && i < 8192
    ensures IsFree(img, i)
  {
    assert WordAt(img, FREEMAP_BLK, i / 32) == 0xFFFF_FFFF;
    AllBits(i % 32, 32);
    Pow32();
  }

  lemma {:induction false} AllBits(k: nat, n: nat)
    requires k < n
    ensures TestBit(Pow2(n) - 1, k)
  {
    if k > 0 {
      AllBits(k - 1, n - 1);
      assert (Pow2(n) - 1) / 2 == Pow2(n - 1) - 1;
    }
  }

  /** Only blocks below the inode table differ. */
  ghost predicate LowOnly(img: Image, img': Image, g: Geometry) {
    |img'| == |img| && forall b: nat :: g.firstinob <= b < |img| ==> img'[b] == img[b]
  }

  lemma LowParts(img: Image, img': Image, g: Geometry, nextinode: nat, fs: Fs, open: int)
    requires Owned(img, g, fs.role, Live(fs)) && InodesOk(img, g, nextinode, fs) && LowOnly(img, img', g)
    requires FilesOk(img, g, fs, open) && DirsOk(img, g, fs, open) && LinksOk(img, g, fs, open)
    ensures Owned(img', g, fs.role, Live(fs)) && InodesOk(img', g, nextinode, fs)
    ensures FilesOk(img', g, fs, open) && DirsOk(img', g, fs, open) && LinksOk(img', g, fs, open)
    ensures forall i :: i in Live(fs) ==> SameData(img, img', g, fs.role, i)
  {
    hide FilesOk, DirsOk, LinksOk, Word, InodesOk;
    forall i: nat | i < g.ninodes
      ensures SameInode(img, img', g, i)
      ensures InodeBlock(g, i) < |img|
    {
      InodeInTable(g, i);
    }
    forall i | i in Live(fs)
      ensures SameData(img, img', g, fs.role, i) && SamePointers(img, img', g, fs.role, i)
    {
      SameDataFrom(img, img', g, fs.role, Live(fs), i);
      SamePointersFrom(img, img', g, fs.role, Live(fs), i);
    }
    hide SameInode, SameData, SamePointers;
    UntouchedPointers(img, img', g, fs.role, Live(fs));
    ScratchContents(img, img', g, nextinode, fs, open);
  }

  lemma LowKept(img: Image, img': Image, g: Geometry, nextb: nat, nextinode: nat, fs: Fs)
    requires FsTree(img, g, nextb, nextinode, fs, -1, {}) && NlinksOk(img, g, fs) && LowOnly(img, img', g)
    ensures FsTree(img', g, nextb, nextinode, fs, -1, {}) && NlinksOk(img', g, fs)
  {
    LowNlinks(img, img', g, nextinode, fs);
    LowParts(img, img', g, nextinode, fs, -1);
    hide FilesOk, DirsOk, LinksOk, NlinksOk, Owned, InodesOk, LowOnly;
  }

  lemma LowNlinks(img: Image, img': Image, g: Geometry, nextinode: nat, fs: Fs)
    requires ValidGeometry(g) && |img| == g.nblocks && InodesOk(img, g, nextinode, fs)
    requires NlinksOk(img, g, fs) && LowOnly(img, img', g)
    ensures NlinksOk(img', g, fs)
  {
    hide CountNamed, CountSubdirs, Word, BlankInode;
    forall i: nat | i < g.ninodes
      ensures IGet(img', g, i, NLINK) == IGet(img, g, i, NLINK)
    {
      InodeInTable(g, i);
    }
    hide IGet;
  }

  /** Clears one bit of the bitmap block in slot s. */
  method ClearInSlot(f: Formatter, s: nat, i: nat)
    requires f.c.Valid() && f.Pins(s, FREEMAP_BLK) && i < 8192
    modifies f.c
    ensures f.c.Valid() && f.Pins(s, FREEMAP_BLK) && f.c.Contents() == Cleared(old(f.c.Contents()), i)
    ensures f.c.slots[s].busy == old(f.c.slots[s].busy)
    ensures forall k :: 0 <= k < NSLOTS && k != s ==> f.c.slots[k] == old(f.c.slots[k])
  {
    hide SetWord, Word, TestBit, ClearBit;
    f.c.Shows(s);
    var w := Word(f.c.slots[s].data, i / 32);
    ClearExact(w, i % 32, 0);
    f.c.StoreWord(s, i / 32, ClearBit(w, i % 32));
  }

  /** The first loop of finishfs: the blocks that were handed out are not free. */
  method ClearUsed(f: Formatter)
    requires f.c.Valid() && NoPins(f.c.slots) && FREEMAP_BLK < f.c.nblocks && f.nextb <= 8192
    requires FreeExactly(f.c.Contents(), 0, 8192) && 2 < f.g.firstinob
    modifies f.c
    ensures f.c.Valid() && NoPins(f.c.slots) && LowOnly(old(f.c.Contents()), f.c.Contents(), f.g)
    ensures FreeExactly(f.c.Contents(), f.nextb, 8192)
  {
    hide Cleared, IsFree, WordAt;
    var i := 0;
    while i < f.nextb
      invariant i <= f.nextb && f.c.Valid() && NoPins(f.c.slots) && LowOnly(old(f.c.Contents()), f.c.Contents(), f.g)
      invariant FreeExactly(f.c.Contents(), i, 8192)
    {
      ghost var img := f.c.Contents();
      var r := f.c.GetBlk(FREEMAP_BLK + i / 8192, false, BitsBlock);
      ClearInSlot(f, r.slot, i);
      f.c.PutBlk(r.slot);
      ClearedOne(img, i, i, 8192);
      LowCleared(old(f.c.Contents()), img, f.g, i);
      i := i + 1;
    }
  }

  lemma ClearedOne(img: Image, i: nat, lo: nat, hi: nat)
    requires FreeExactly(img, lo, hi) && FREEMAP_BLK < |img| && i < 8192
    ensures i == lo ==> FreeExactly(Cleared(img, i), lo + 1, hi)
    ensures forall j: nat :: j < 8192 ==> (IsFree(Cleared(img, i), j) <==> lo <= j < hi && j != i)
  {
    hide Cleared, IsFree;
    forall j: nat | j < 8192
      ensures IsFree(Cleared(img, i), j) <==> lo <= j < hi && j != i
    {
      ClearedExact(img, i, j);
    }
  }

  lemma LowCleared(img0: Image, img: Image, g: Geometry, i: nat)
    requires LowOnly(img0, img, g) && FREEMAP_BLK < |img| && i < 8192 && 2 < g.firstinob
    ensures LowOnly(img0, Cleared(img, i), g)
  {
    hide Cleared;
    ClearedExact(img, i, i);
  }

  /** The free blocks while finishfs clears the bits past the end of the disk. */
  ghost predicate FreeBut(img: Image, lo: nat, nblocks: nat, i: nat) {
    forall j: nat :: j < 8192 ==> (IsFree(img, j) <==> lo <= j && !(nblocks <= j < i))
  }

  lemma ClearedEnd(img: Image, lo: nat, nblocks: nat, i: nat)
    requires FreeBut(img, lo, nblocks, i) && nblocks <= i < 8192 && FREEMAP_BLK < |img|
    ensures FreeBut(Cleared(img, i), lo, nblocks, i + 1)
  {
    hide Cleared, IsFree;
    forall j: nat | j < 8192
      ensures IsFree(Cleared(img, i), j) <==> IsFree(img, j) && j != i
    {
      ClearedExact(img, i, j);
    }
  }

  /** The second loop of finishfs: there are no blocks past the end of the disk. */
  method ClearEnd(f: Formatter)
    requires f.c.Valid() && NoPins(f.c.slots) && f.c.nblocks == f.g.nblocks && 2 < f.g.firstinob < f.g.nblocks <= 8192
    requires FreeExactly(f.c.Contents(), f.nextb, 8192)
    modifies f.c
    ensures f.c.Valid() && NoPins(f.c.slots) && LowOnly(old(f.c.Contents()), f.c.Contents(), f.g)
    ensures FreeExactly(f.c.Contents(), f.nextb, f.g.nblocks)
  {
    hide Cleared, IsFree, WordAt;
    if f.g.nblocks != 8192 {
      var r := f.c.GetBlk(FREEMAP_BLK, false, BitsBlock);
      var i := f.g.nblocks % 8192;
      while i < 8192
        invariant f.g.nblocks <= i <= 8192 && f.c.Valid() && f.Pins(r.slot, FREEMAP_BLK) && f.c.slots[r.slot].busy == 1
        invariant forall k :: 0 <= k < NSLOTS && k != r.slot ==> f.c.slots[k].busy == 0
        invariant LowOnly(old(f.c.Contents()), f.c.Contents(), f.g) && FreeBut(f.c.Contents(), f.nextb, f.g.nblocks, i)
      {
        ghost var img := f.c.Contents();
        ClearInSlot(f, r.slot, i);
        ClearedEnd(img, f.nextb, f.g.nblocks, i);
        LowCleared(old(f.c.Contents()), img, f.g, i);
        i := i + 1;
      }
      f.c.PutBlk(r.slot);
    }
  }

  method FinishFs(f: Formatter)
    requires f.Inv(-1, NONE) && NlinksOk(f.c.Contents(), f.g, f.fs) && NoPins(f.c.slots)
    modifies f.c
    ensures f.c.Valid() && f.c.nblocks == f.g.nblocks && Formatted(f.c.Contents(), f.g, f.nextb, f.nextinode, f.fs)
  {
    hide FsTree, NlinksOk, PinsOk, IsFree;
    assert NONE.Keys == {};
    ghost var img := f.c.Contents();
    FsCoreBounds(img, f.g, f.nextb, f.nextinode, f.fs, -1, {});
    forall i: nat | i < 8192
      ensures IsFree(img, i)
    {
      OnesAreFree(img, i);
    }
    ClearUsed(f);
    ghost var img1 := f.c.Contents();
    ClearEnd(f);
    ghost var img2 := f.c.Contents();
    InitBlock(f, 1, SuperBlock, SuperBlockOf(f.g));
    SuperKeepsFree(img2, SuperBlockOf(f.g), f.nextb, f.g.nblocks);
    LowKept(img, f.c.Contents(), f.g, f.nextb, f.nextinode, f.fs);
  }

  lemma SuperKeepsFree(img: Image, b: Block, lo: nat, hi: nat)
    requires FreeExactly(img, lo, hi) && 2 < |img|
    ensures FreeExactly(img[1 := b], lo, hi)
  {
    hide IsFree;
    var img' := img[1 := b];
    forall i: nat | i < 8192
      ensures IsFree(img', i) <==> lo <= i < hi
    {
      assert IsFree(img, i) <==> lo <= i < hi;
      SuperIsNotBitmap(img, b, i);
    }
  }

  lemma SuperIsNotBitmap(img: Image, b: Block, i: nat)
    requires 2 < |img|
    ensures IsFree(img[1 := b], i) == IsFree(img, i)
  {
  }

  // ---------------------------------------------------------------- main

  /** The links made for -l options, which are not checked for their length. */
  predicate LinkOptions(links: seq<Host>) {
    forall k :: 0 <= k < |links| ==>
      links[k].HostLink? && links[k].host == 0 && |links[k].target| <= 51 && 0 !in links[k].name
  }

  /** What a run puts into the image. */
  function Wanted(items: seq<Host>, links: seq<Host>): Built {
    AddItems(AddItems(RootFs(), ROOT_INO, items), ROOT_INO, links)
  }

  method AddLinks(f: Formatter, dslot: nat, links: seq<Host>) returns (r: Status)
    requires Sound(f) && ROOT_INO in f.fs.dirs && f.Pins(dslot, InodeBlock(f.g, ROOT_INO)) && LinkOptions(links)
    modifies f`nextb, f`nextinode, f`fs, f`hardlinks, f.c
    ensures f.c.Valid() && (r.Done? ==> f.nextb <= old(f.nextb) + ItemsDemand(old(Run(f)), ROOT_INO, links).blocks)
    ensures Justified(r, f.g, old(f.c.slots), old(f.nextb), ItemsDemand(old(Run(f)), ROOT_INO, links))
    ensures r.Done? ==> NamesFit(links)
    ensures r.Done? ==> Sound(f) && Run(f) == AddItems(old(Run(f)), ROOT_INO, links)
    ensures r.Done? ==> SamePins(old(f.c.slots), f.c.slots)
  {
    hide FsCore, SamePins, Unpin, PinsOk, NlinksOk, TableOk, Short, PlaceDemand;
    SamePinsSelf(f.c.slots, f.g.nblocks);
    var i := 0;
    while i < |links|
      invariant i <= |links| && Sound(f) && ROOT_INO in f.fs.dirs
      invariant AddItems(Run(f), ROOT_INO, links[i..]) == AddItems(old(Run(f)), ROOT_INO, links)
      invariant SamePins(old(f.c.slots), f.c.slots) && (NamesFit(links[i..]) ==> NamesFit(links))
      invariant Left(old(f.nextb), ItemsDemand(old(Run(f)), ROOT_INO, links), f.nextb, ItemsDemand(Run(f), ROOT_INO, links[i..]))
    {
      ghost var slots := f.c.slots;
      StillBusy(old(f.c.slots), slots, dslot);
      assert links[i..][0] == links[i] && links[i..][1..] == links[i + 1..];
      ghost var was, nextb, need := Run(f), f.nextb, ItemsDemand(Run(f), ROOT_INO, links[i..]);
      r := AddSymlink(f, ROOT_INO, dslot, links[i].name, 0, links[i].target);
      JustifiedMore(r, f.g, slots, nextb, PlaceDemand(was, ROOT_INO, links[i].name, 0), nextb, need);
      if r.Aborted? {
        JustifiedSame(r, f.g, old(f.c.slots), slots, nextb, need);
        JustifiedMore(r, f.g, old(f.c.slots), nextb, need, old(f.nextb), ItemsDemand(old(Run(f)), ROOT_INO, links));
        return;
      }
      assert Run(f).fs.dirs == was.fs.dirs;
      SamePinsTrans(old(f.c.slots), slots, f.c.slots);
      i := i + 1;
    }
    return Done;
  }

  /** What a run takes after the root directory has been made. */
  function RunDemand(items: seq<Host>, links: seq<Host>): Demand {
    Both(ItemsDemand(RootFs(), ROOT_INO, items), ItemsDemand(AddItems(RootFs(), ROOT_INO, items), ROOT_INO, links))
  }

  /** The files fit on the disk. One slot of the cache stays with the root directory. */
  predicate Fits(nblocks: nat, ninodes: nat, items: seq<Host>, links: seq<Host>) {
    var need := RunDemand(items, links);
    && need.slots < 16 && need.names && need.next <= ninodes
    && GeometryOf(nblocks, ninodes).firstdata + need.blocks + need.spare <= nblocks
  }

  lemma {:induction false} LinksAreFlat(links: seq<Host>)
    requires forall k :: 0 <= k < |links| ==> links[k].HostLink?
    ensures Depth(links) == 0
  {
    if links != [] {
      LinksAreFlat(links[1..]);
    }
  }

  lemma OnlyLinks(links: seq<Host>)
    requires LinkOptions(links)
    ensures forall k :: 0 <= k < |links| ==> links[k].HostLink?
  {
  }

  /** The cache is large enough for five levels of directories below the root. */
  lemma ShallowFits(items: seq<Host>, links: seq<Host>)
    requires Depth(items) <= 5 && LinkOptions(links)
    ensures RunDemand(items, links).slots < 16
  {
    hide ItemsDemand, AddItems, Depth, LinkOptions;
    assert forall k :: 0 <= k < |links| ==> links[k].HostLink? by { OnlyLinks(links); }
    LinksAreFlat(links);
    DepthSlots(RootFs(), ROOT_INO, items);
    DepthSlots(AddItems(RootFs(), ROOT_INO, items), ROOT_INO, links);
  }

  lemma NotJustified(r: Status, g: Geometry, slots: Slots, b: Slots, s: nat, nextb: nat, need: Demand, whole: Demand)
    requires NoPins(slots) && SamePins(slots, Unpin(b, s)) && Justified(r, g, b, nextb, need)
    requires Left(g.firstdata, whole, nextb, need) && whole.slots < NSLOTS && whole.names && whole.next <= g.ninodes
    requires g.firstdata + whole.blocks + whole.spare <= g.nblocks
    ensures r.Done?
  {
    JustifiedBefore(r, g, slots, b, s, nextb, need);
    NotShort(slots, need.slots + 1);
    hide Short;
  }

  lemma RunDemandNext(items: seq<Host>, links: seq<Host>)
    ensures RunDemand(items, links).next == Wanted(items, links).next
  {
    hide ItemsDemand, AddItems;
    DemandNext(RootFs(), ROOT_INO, items);
    DemandNext(AddItems(RootFs(), ROOT_INO, items), ROOT_INO, links);
    DirsGrow(AddItems(RootFs(), ROOT_INO, items), ROOT_INO, links);
  }

  /** main: the run succeeds whenever the files fit, takes no more blocks than foreseen, and
      leaves a disk that holds exactly what was wanted. */
  method Format(nblocks: nat, ninodes: nat, items: seq<Host>, links: seq<Host>)
    returns (r: Status, disk: Image, ghost nextb: nat, ghost fs: Fs)
    requires ValidArguments(nblocks, ninodes) && HostNames(items) && LinkOptions(links)
    ensures Fits(nblocks, ninodes, items, links) ==> r.Done?
    ensures r.Done? ==> NamesFit(items) && NamesFit(links) && Wanted(items, links).next <= ninodes
    ensures r.Done? ==> nextb <= GeometryOf(nblocks, ninodes).firstdata + RunDemand(items, links).blocks
    ensures r.Done? ==> Formatted(disk, GeometryOf(nblocks, ninodes), nextb, Wanted(items, links).next, fs)
    ensures r.Done? ==> fs.(role := map[]) == Wanted(items, links).fs
  {
    hide FsCore, SamePins, Unpin, PinsOk, NlinksOk, TableOk, Formatted, AddItems, Short, ItemsDemand, NamesFit, Justified;
    ArgumentsFit(nblocks, ninodes);
    disk, nextb, fs := [], 0, EmptyFs();
    var f := new Formatter(nblocks, ninodes);
    OpenDisk(f);
    ghost var slots := f.c.slots;
    var rootinob := MakeRoot(f);
    ghost var slots1, whole, nextb1 := f.c.slots, RunDemand(items, links), f.nextb;
    assert f.fs.dirs == Run(f).fs.dirs;
    r := WriteItems(f, ROOT_INO, rootinob, items);
    if r.Aborted? {
      if Fits(nblocks, ninodes, items, links) {
        NotJustified(r, f.g, slots, slots1, rootinob, nextb1, ItemsDemand(RootFs(), ROOT_INO, items), whole);
      }
      return;
    }
    ghost var slots2, nextb2 := f.c.slots, f.nextb;
    StillBusy(slots1, slots2, rootinob);
    RootStays(items);
    assert f.fs.dirs == Run(f).fs.dirs;
    PinsNest(slots, slots1, slots2, rootinob);
    r := AddLinks(f, rootinob, links);
    if r.Aborted? {
      if Fits(nblocks, ninodes, items, links) {
        NotJustified(r, f.g, slots, slots2, rootinob, nextb2, ItemsDemand(AddItems(RootFs(), ROOT_INO, items), ROOT_INO, links), whole);
      }
      return;
    }
    SamePinsTrans(slots1, slots2, f.c.slots);
    PinsNest(slots, slots1, f.c.slots, rootinob);
    StillBusy(slots1, f.c.slots, rootinob);
    ReleaseOnly(f, slots, rootinob);
    KeptNoPins(slots, f.c.slots);
    InodeBounds(f.c.Contents(), f.g, f.nextb, f.nextinode, f.fs, -1, NONE.Keys);
    FinishFs(f);
    f.c.FlushDisk();
    disk, nextb, fs := f.c.disk, f.nextb, f.fs;
    r := Done;
  }

  lemma RootStays(items: seq<Host>)
    ensures ROOT_INO in AddItems(RootFs(), ROOT_INO, items).fs.dirs
  {
    DirsGrow(RootFs(), ROOT_INO, items);
  }

  /** Some pointer in the inode table or in a pointer block of a file or directory leads to b. */
  ghost predicate Referenced(img: Image, g: Geometry, fs: Fs, b: nat) {
    exists r :: Anchored(fs.role, Live(fs), r) && Ref(img, g, r) == b
  }

  /** Every data block below the first unused one, and no other block, is referenced, and no
      two pointers lead to the same block. */
  lemma EachBlockOwnedOnce(img: Image, g: Geometry, nextb: nat, nextinode: nat, fs: Fs)
    requires Formatted(img, g, nextb, nextinode, fs)
    ensures forall b: nat :: b > 0 ==> (Referenced(img, g, fs, b) <==> g.firstdata <= b < nextb)
    ensures forall r, r' :: Anchored(fs.role, Live(fs), r) && Anchored(fs.role, Live(fs), r') && Ref(img, g, r) == Ref(img, g, r') != 0 ==> r == r'
  {
    hide FilesOk, DirsOk, LinksOk, NlinksOk, FreeExactly, Ref;
    forall r | Anchored(fs.role, Live(fs), r)
      ensures if r in fs.role.Values then Ref(img, g, r) in fs.role && fs.role[Ref(img, g, r)] == r else Ref(img, g, r) == 0
    {
      RefExact(img, g, fs.role, Live(fs), r);
    }
    forall b: nat | b > 0
      ensures Referenced(img, g, fs, b) <==> g.firstdata <= b < nextb
    {
      if g.firstdata <= b < nextb {
        assert b in fs.role && Anchored(fs.role, Live(fs), fs.role[b]);
      }
    }
  }
}
