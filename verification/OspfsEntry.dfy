/** allocdirentry and allocinode of ospfsformat (lab3/ospfsformat.c): finding room for one more
    entry of a directory, and taking an inode for it. */
module OspfsEntry {
  import opened OspfsLayout
  import opened OspfsContents
  import opened BlockCache
  import opened OspfsFs
  import opened OspfsCosts
  import opened OspfsSteps
  import opened OspfsFormat

  /** Slot dirb pins the block with the next free entry q of directory d, which already carries
      the name. */
  ghost predicate EntryReady(f: Formatter, d: nat, dirb: nat, q: nat, name: seq<byte>)
    reads f, f.c
  {
    && f.c.Valid() && f.c.nblocks == f.g.nblocks && d in f.fs.dirs && HasRoom(f.c.Contents(), f.g, f.fs, d)
    && f.Pins(dirb, NextEntryBlock(f.c.Contents(), f.g, f.fs, d)) && q == NextEntryIndex(f.fs, d)
    && NextEntryBlock(f.c.Contents(), f.g, f.fs, d) < f.g.nblocks
    && NameAt(f.c.Contents()[NextEntryBlock(f.c.Contents(), f.g, f.fs, d)], q, name)
  }

  lemma DataBlockNlinks(img: Image, g: Geometry, b: nat, content: Block)
    requires ValidGeometry(g) && |img| == g.nblocks && g.firstdata <= b < |img|
    ensures NlinksKept(img, img[b := content], g, -1)
  {
    forall j: nat | j < g.ninodes
      ensures IGet(img[b := content], g, j, NLINK) == IGet(img, g, j, NLINK)
    {
      InodeInTable(g, j);
    }
  }

  lemma NlinksTrans(a: Image, b: Image, c: Image, g: Geometry, x: int)
    requires NlinksKept(a, b, g, -1) && NlinksKept(b, c, g, x)
    ensures NlinksKept(a, c, g, x)
  {
    hide IGet;
  }

  lemma GrownNlinks(img: Image, img': Image, g: Geometry, role: Roles, role': Roles, i: nat, n: nat, b: nat)
    requires ValidGeometry(g) && |img| == g.nblocks && Grown(img, img', g, role, role', i, n, b)
    ensures NlinksKept(img, img', g, -1)
  {
    ConfinedNlinks(img, img', g, role, role', i);
    SameAttributes(img, img', g, role, i);
    AllNlinks(img, img', g, i);
    hide Confined, SameData, HasBlocks, Ref;
  }

  /** Scans the eight entries of a directory block for an empty one. */
  method FindEmpty(data: Block) returns (q: nat)
    ensures q <= 8
    ensures forall p: nat :: p < q ==> Word(data, p * 32) != 0
    ensures q < 8 ==> Word(data, q * 32) == 0
  {
    q := 0;
    while q < 8
      invariant q <= 8
      invariant forall p: nat :: p < q ==> Word(data, p * 32) != 0
    {
      if Word(data, q * 32) == 0 {
        return;
      }
      q := q + 1;
    }
  }

  lemma ScanExact(img: Image, g: Geometry, nextb: nat, nextinode: nat, fs: Fs, d: nat, n: nat, q: nat)
    requires FsCore(img, g, nextb, nextinode, fs, -1, {}) && d in fs.dirs && q <= 8
    requires n == IGet(img, g, d, SIZE) / 1024 && n > 0 && Ref(img, g, Data(d, n - 1)) < |img|
    requires forall p: nat :: p < q ==> Word(img[Ref(img, g, Data(d, n - 1))], p * 32) != 0
    requires q < 8 ==> Word(img[Ref(img, g, Data(d, n - 1))], q * 32) == 0
    ensures |Entries(fs.log, d)| == (n - 1) * 8 + q
  {
    hide FsCore, IGet, Ref, Word;
    if q < 8 {
      LastBlock(img, g, nextb, nextinode, fs, d, n, q);
    }
    if q > 0 {
      LastBlock(img, g, nextb, nextinode, fs, d, n, q - 1);
    }
  }

  /** Looks for room in the last block of the directory; without room nothing stays pinned. */
  method ScanLast(f: Formatter, d: nat, dslot: nat, nblk: nat) returns (r: GetResult, q: nat)
    requires f.Inv(-1, NONE) && d in f.fs.dirs && f.Pins(dslot, InodeBlock(f.g, d))
    requires nblk + 1 == IGet(f.c.Contents(), f.g, d, SIZE) / 1024
    modifies f.c
    ensures f.c.Valid() && !r.PastEnd? && (r.CacheFull? ==> Short(old(f.c.slots), 3))
    ensures r.Got? ==> f.Inv(-1, NONE) && f.c.Contents() == old(f.c.Contents()) && q <= 8
    ensures r.Got? ==> |Entries(f.fs.log, d)| == nblk * 8 + q
    ensures r.Got? && q < 8 ==> f.Pins(r.slot, Ref(f.c.Contents(), f.g, Data(d, nblk))) && SamePins(old(f.c.slots), Unpin(f.c.slots, r.slot))
    ensures r.Got? && q == 8 ==> SamePins(old(f.c.slots), f.c.slots)
  {
    hide FsCore, Ref, Word, IGet, SamePins, Unpin, PinsOk;
    assert NONE.Keys == {};
    ghost var img := f.c.Contents();
    LastBlock(img, f.g, f.nextb, f.nextinode, f.fs, d, nblk + 1, 0);
    r := f.GetDirBlock(d, dslot, nblk);
    q := 0;
    if r.Got? {
      f.c.Shows(r.slot);
      q := FindEmpty(f.c.slots[r.slot].data);
      ScanExact(img, f.g, f.nextb, f.nextinode, f.fs, d, nblk + 1, q);
      if q == 8 {
        f.Release(r.slot, -1, NONE);
      }
    }
  }

  lemma ScratchDir(img: Image, g: Geometry, nextb: nat, nextinode: nat, fs: Fs, d: nat, b: nat)
    requires FsCore(img, g, nextb, nextinode, fs, -1, {b}) && d in fs.dirs
    ensures FsCore(img, g, nextb, nextinode, fs, d, {b})
    ensures d < nextinode && d in Live(fs) && DataType(fs, d) == DirBlock
  {
    FsOpen(img, g, nextb, nextinode, fs, d, {b});
    DirFacts(img, g, nextb, nextinode, fs, d, {b});
    hide FsCore, DirBody, IGet;
  }

  lemma SizeIsKept(img: Image, img': Image, g: Geometry, role: Roles, role': Roles, d: nat, n: nat, b: nat)
    requires Grown(img, img', g, role, role', d, n, b)
    ensures IGet(img', g, d, SIZE) == IGet(img, g, d, SIZE) && n < MAXFILEBLKS
  {
    hide Confined, Ref;
    SameAttributes(img, img', g, role, d);
  }

  /** A new, empty last block for a directory without room. */
  method NewDirBlock(f: Formatter, d: nat, dslot: nat, nblk: nat) returns (r: Status, dirb: nat)
    requires f.Inv(-1, NONE) && d in f.fs.dirs && f.Pins(dslot, InodeBlock(f.g, d))
    requires nblk == IGet(f.c.Contents(), f.g, d, SIZE) / 1024 && |Entries(f.fs.log, d)| == nblk * 8
    modifies f`nextb, f`fs, f.c
    ensures f.c.Valid() && f.fs == old(f.fs).(role := f.fs.role)
    ensures f.nextb <= old(f.nextb) + 1 + PointerCost(nblk)
    ensures Justified(r, f.g, old(f.c.slots), old(f.nextb), Demand(3, 1 + PointerCost(nblk), 0, 0, true))
    ensures r.Done? ==> f.Inv(-1, NONE) && SamePins(old(f.c.slots), Unpin(f.c.slots, dirb))
    ensures r.Done? ==> HasRoom(f.c.Contents(), f.g, f.fs, d) && NextEntryIndex(f.fs, d) == 0
    ensures r.Done? ==> f.Pins(dirb, NextEntryBlock(f.c.Contents(), f.g, f.fs, d))
    ensures r.Done? ==> NlinksKept(old(f.c.Contents()), f.c.Contents(), f.g, -1)
  {
    hide FsCore, Ref, Word, IGet, SamePins, Unpin, PinsOk, Grown, HasBlocks, DirBody, NlinksKept, HasRoom, NextEntryBlock, Short;
    assert NONE.Keys == {};
    ghost var img, b, slots := f.c.Contents(), f.nextb, f.c.slots;
    FsCoreBounds(img, f.g, f.nextb, f.nextinode, f.fs, -1, {});
    DirFacts(img, f.g, f.nextb, f.nextinode, f.fs, d, {});
    FewBlocks(img, f.g, f.nextb, f.nextinode, f.fs, -1, {}, d, nblk);
    var res := f.Fresh(DirBlock, -1, NONE);
    if !res.Got? {
      if res.CacheFull? {
        ShortMore(slots, 1, 3);
      }
      return Aborted(if res.PastEnd? then DiskFull else CacheExhausted), 0;
    }
    ghost var img1, role1, slots1 := f.c.Contents(), f.fs.role, f.c.slots;
    assert NONE[b := DirBlock].Keys == {b};
    ScratchDir(img1, f.g, f.nextb, f.nextinode, f.fs, d, b);
    DirFacts(img1, f.g, f.nextb, f.nextinode, f.fs, d, {b});
    InodeOut(img, f.g, b, d);
    DataBlockNlinks(img, f.g, b, ZERO);
    StillPinned(slots, slots1, res.slot, dslot);
    assert f.c.slots[res.slot].bno == b && NONE[b := DirBlock] == map[b := DataType(f.fs, d)];
    r := f.StoreBlk(d, dslot, res.slot, nblk);
    if r.Aborted? {
      JustifiedBefore(r, f.g, slots, slots1, res.slot, b + 1, Demand(2, PointerCost(nblk), 0, 0, true));
      JustifiedMore(r, f.g, slots, b + 1, Demand(3, PointerCost(nblk), 0, 0, true), b, Demand(3, 1 + PointerCost(nblk), 0, 0, true));
      return r, 0;
    }
    dirb := res.slot;
    ghost var img2, slots2 := f.c.Contents(), f.c.slots;
    PinsNest(slots, slots1, slots2, dirb);
    StillBusy(slots1, slots2, dslot);
    StillBusy(slots1, slots2, dirb);
    SizeIsKept(img1, img2, f.g, role1, f.fs.role, d, nblk, b);
    GrownNlinks(img1, img2, f.g, role1, f.fs.role, d, nblk, b);
    SetDirSize(f, img1, role1, d, dslot, nblk, b);
    PinsNest(slots, slots2, f.c.slots, dirb);
    StillBusy(slots2, f.c.slots, dirb);
    NlinksTrans(img, img1, img2, f.g, -1);
    NlinksTrans(img, img2, f.c.Contents(), f.g, -1);
  }

  lemma InodeOut(img: Image, g: Geometry, b: nat, d: nat)
    requires ValidGeometry(g) && |img| == g.nblocks && g.firstdata <= b < |img| && d < g.ninodes
    ensures IGet(img[b := ZERO], g, d, SIZE) == IGet(img, g, d, SIZE)
  {
    InodeInTable(g, d);
  }

  /** The size of a directory that has gained a block. */
  method SetDirSize(f: Formatter, ghost img: Image, ghost role: Roles, d: nat, dslot: nat, nblk: nat, ghost b: nat)
    requires f.Inv(d, NONE) && d in f.fs.dirs && d < f.nextinode && f.Pins(dslot, InodeBlock(f.g, d))
    requires Grown(img, f.c.Contents(), f.g, role, f.fs.role, d, nblk, b) && b < |img| && img[b] == ZERO
    requires IGet(img, f.g, d, FTYPE) == FTYPE_DIR && IGet(f.c.Contents(), f.g, d, SIZE) == nblk * 1024 && nblk < MAXFILEBLKS
    requires DirBody(img, f.g, role, d, nblk, Entries(f.fs.log, d)) && |Entries(f.fs.log, d)| == nblk * 8
    modifies f.c
    ensures f.Inv(-1, NONE) && SamePins(old(f.c.slots), f.c.slots)
    ensures HasRoom(f.c.Contents(), f.g, f.fs, d) && NextEntryIndex(f.fs, d) == 0
    ensures NextEntryBlock(f.c.Contents(), f.g, f.fs, d) == b
    ensures NlinksKept(old(f.c.Contents()), f.c.Contents(), f.g, -1)
  {
    hide FsCore, Ref, Word, SamePins, Unpin, PinsOk, Grown, HasBlocks, DirBody, NlinksKept, HasRoom, NextEntryBlock;
    assert NONE.Keys == {};
    f.c.Shows(dslot);
    var size := Word(f.c.slots[dslot].data, InodeWord(d, SIZE));
    FsDirGrown(img, f.c.Contents(), f.g, f.nextb, f.nextinode, f.fs, role, d, nblk, b);
    WritePins(f.c.slots, f.c.nblocks, dslot, SetWord(f.c.slots[dslot].data, InodeWord(d, SIZE), size + 1024));
    SamePinsAlso(f.c.slots, f.c.slots[dslot := f.c.slots[dslot].(data := SetWord(f.c.slots[dslot].data, InodeWord(d, SIZE), size + 1024))], f.g, f.nextb, f.fs, NONE);
    f.c.StoreWord(dslot, InodeWord(d, SIZE), size + 1024);
  }

  lemma SamePinsAlso(a: Slots, b: Slots, g: Geometry, nextb: nat, fs: Fs, pending: Pending)
    requires PinsOk(a, g, nextb, fs, pending) && SamePins(a, b)
    ensures PinsOk(b, g, nextb, fs, pending)
  {
  }

  /** strcpy of the name into the entry that was found. */
  method WriteName(f: Formatter, d: nat, dirb: nat, q: nat, name: seq<byte>)
    requires f.Inv(-1, NONE) && d in f.fs.dirs && |name| <= MAXNAMELEN
    requires HasRoom(f.c.Contents(), f.g, f.fs, d) && q == NextEntryIndex(f.fs, d)
    requires f.Pins(dirb, NextEntryBlock(f.c.Contents(), f.g, f.fs, d))
    modifies f.c
    ensures f.Inv(-1, NONE) && SamePins(old(f.c.slots), f.c.slots) && EntryReady(f, d, dirb, q, name)
    ensures NlinksKept(old(f.c.Contents()), f.c.Contents(), f.g, -1)
  {
    hide FsCore, SamePins, Unpin, PinsOk, NlinksKept, HasRoom, NextEntryBlock, WithName, NameAt, SameTable;
    assert NONE.Keys == {};
    ghost var img := f.c.Contents();
    ghost var b := NextEntryBlock(img, f.g, f.fs, d);
    FsCoreBounds(img, f.g, f.nextb, f.nextinode, f.fs, -1, {});
    f.c.Shows(dirb);
    ghost var data := WithName(f.c.slots[dirb].data, q, name);
    FsNamed(img, f.g, f.nextb, f.nextinode, f.fs, d, {}, name, b);
    RoomKept(img, img[b := data], f.g, f.nextb, f.nextinode, f.fs, d);
    TableNlinks(img, img[b := data], f.g, -1);
    WritePins(f.c.slots, f.c.nblocks, dirb, data);
    SamePinsAlso(f.c.slots, f.c.slots[dirb := f.c.slots[dirb].(data := data)], f.g, f.nextb, f.fs, NONE);
    f.c.Store(dirb, WithName(f.c.slots[dirb].data, q, name));
  }

  lemma RoomKept(img: Image, img': Image, g: Geometry, nextb: nat, nextinode: nat, fs: Fs, d: nat)
    requires FsCore(img, g, nextb, nextinode, fs, -1, {}) && d in fs.dirs && HasRoom(img, g, fs, d)
    requires SameTable(img, img', g) && |img'| == |img|
    ensures HasRoom(img', g, fs, d)
  {
    hide FsCore, IGet, DirBody, SameInode, HasBlocks;
    DirFacts(img, g, nextb, nextinode, fs, d, {});
    FsCoreBounds(img, g, nextb, nextinode, fs, -1, {});
    InodeInTable(g, d);
    DirSizeKept(img, img', g, d);
  }

  /** What a further entry takes in a directory of k entries. */
  function EntryDemand(k: nat, name: seq<byte>): Demand {
    Demand(3, EntryCost(k), 0, 0, |name| <= 123)
  }

  /** The part of allocdirentry that looks for room: a free entry of the last block, or a new
      block. */
  method FindRoom(f: Formatter, d: nat, dslot: nat) returns (r: Status, dirb: nat, q: nat)
    requires f.Inv(-1, NONE) && d in f.fs.dirs && f.Pins(dslot, InodeBlock(f.g, d))
    modifies f`nextb, f`fs, f.c
    ensures f.c.Valid() && f.fs == old(f.fs).(role := f.fs.role)
    ensures f.nextb <= old(f.nextb) + EntryCost(|Entries(f.fs.log, d)|)
    ensures Justified(r, f.g, old(f.c.slots), old(f.nextb), Demand(3, EntryCost(|Entries(f.fs.log, d)|), 0, 0, true))
    ensures r.Done? ==> f.Inv(-1, NONE) && SamePins(old(f.c.slots), Unpin(f.c.slots, dirb))
    ensures r.Done? ==> HasRoom(f.c.Contents(), f.g, f.fs, d) && q == NextEntryIndex(f.fs, d)
    ensures r.Done? ==> f.Pins(dirb, NextEntryBlock(f.c.Contents(), f.g, f.fs, d))
    ensures r.Done? ==> NlinksKept(old(f.c.Contents()), f.c.Contents(), f.g, -1)
  {
    hide FsCore, SamePins, Unpin, PinsOk, NlinksKept, NextEntryBlock, Word, IGet, DirBody, HasBlocks, Short, Entries;
    assert NONE.Keys == {};
    dirb, q := 0, 0;
    ghost var img, slots, nextb := f.c.Contents(), f.c.slots, f.nextb;
    DirFacts(img, f.g, f.nextb, f.nextinode, f.fs, d, {});
    f.c.Shows(dslot);
    var nblk := (Word(f.c.slots[dslot].data, InodeWord(d, SIZE)) + 1023) / 1024 - 1;
    assert nblk + 1 == IGet(img, f.g, d, SIZE) / 1024 by { SizeWord(img, f.g, d); }
    NothingMoved(img, f.g);
    if nblk >= 0 {
      var res;
      res, q := ScanLast(f, d, dslot, nblk);
      if !res.Got? {
        return Aborted(CacheExhausted), 0, 0;
      }
      if q < 8 {
        LastHasRoom(img, f.g, f.fs, d, nblk, q);
        return Done, res.slot, q;
      }
      ghost var slots1 := f.c.slots;
      StillBusy(slots, slots1, dslot);
      r, dirb := NewDirBlock(f, d, dslot, nblk + 1);
      if r.Aborted? {
        JustifiedSame(r, f.g, slots, slots1, nextb, Demand(3, 1 + PointerCost(nblk + 1), 0, 0, true));
        return r, 0, 0;
      }
      PinsNestFirst(slots, slots1, f.c.slots, dirb);
    } else {
      r, dirb := NewDirBlock(f, d, dslot, 0);
    }
    q := 0;
  }

  method AllocDirEntry(f: Formatter, d: nat, dslot: nat, name: seq<byte>) returns (r: Status, dirb: nat, q: nat)
    requires f.Inv(-1, NONE) && d in f.fs.dirs && f.Pins(dslot, InodeBlock(f.g, d)) && 0 !in name
    modifies f`nextb, f`fs, f.c
    ensures f.c.Valid() && f.fs == old(f.fs).(role := f.fs.role)
    ensures r == Aborted(NameTooLong) <==> |name| > 123
    ensures f.nextb <= old(f.nextb) + EntryCost(|Entries(f.fs.log, d)|)
    ensures Justified(r, f.g, old(f.c.slots), old(f.nextb), EntryDemand(|Entries(f.fs.log, d)|, name))
    ensures r.Done? ==> f.Inv(-1, NONE) && EntryReady(f, d, dirb, q, name)
    ensures r.Done? ==> SamePins(old(f.c.slots), Unpin(f.c.slots, dirb))
    ensures r.Done? ==> NlinksKept(old(f.c.Contents()), f.c.Contents(), f.g, -1)
  {
    hide FsCore, SamePins, Unpin, PinsOk, NlinksKept, NextEntryBlock, HasRoom, NextEntryIndex, Short, EntryCost, EntryReady;
    if |name| > MAXNAMELEN {
      return Aborted(NameTooLong), 0, 0;
    }
    ghost var img, slots := f.c.Contents(), f.c.slots;
    r, dirb, q := FindRoom(f, d, dslot);
    if r.Aborted? {
      return r, 0, 0;
    }
    ghost var img1, slots1 := f.c.Contents(), f.c.slots;
    WriteName(f, d, dirb, q, name);
    PinsNest(slots, slots1, f.c.slots, dirb);
    NlinksTrans(img, img1, f.c.Contents(), f.g, -1);
  }

  lemma SizeWord(img: Image, g: Geometry, d: nat)
    requires InodeBlock(g, d) < |img|
    ensures Word(img[InodeBlock(g, d)], InodeWord(d, SIZE)) == IGet(img, g, d, SIZE)
  {
  }

  lemma NothingMoved(img: Image, g: Geometry)
    ensures NlinksKept(img, img, g, -1)
  {
  }

  lemma LastHasRoom(img: Image, g: Geometry, fs: Fs, d: nat, nblk: nat, q: nat)
    requires nblk + 1 == IGet(img, g, d, SIZE) / 1024 && |Entries(fs.log, d)| == nblk * 8 + q && q < 8
    ensures HasRoom(img, g, fs, d) && NextEntryIndex(fs, d) == q
    ensures NextEntryBlock(img, g, fs, d) == Ref(img, g, Data(d, nblk))
  {
  }

  lemma PinsNestFirst(a: Slots, b: Slots, c: Slots, s: nat)
    requires SamePins(a, b) && SamePins(b, Unpin(c, s))
    ensures SamePins(a, Unpin(c, s))
  {
  }

  // ---------------------------------------------------------------- inodes for entries

  /** Stores an inode number that is in use into the entry that was made ready. */
  method EnterInode(f: Formatter, d: nat, dirb: nat, q: nat, name: seq<byte>, ino: nat)
    requires f.Inv(-1, NONE) && EntryReady(f, d, dirb, q, name) && ValidName(name)
    requires 0 < ino < f.nextinode && ino < 0x1_0000_0000
    modifies f`fs, f.c
    ensures f.Inv(-1, NONE) && SamePins(old(f.c.slots), f.c.slots)
    ensures f.fs == old(f.fs).(log := old(f.fs).log + [Named(d, Entry(ino, name))])
    ensures NlinksKept(old(f.c.Contents()), f.c.Contents(), f.g, -1)
  {
    hide FsCore, SamePins, Unpin, PinsOk, NlinksKept, HasRoom, NextEntryBlock, NextEntryIndex, NameAt, SameTable, SetWord;
    assert NONE.Keys == {};
    ghost var img := f.c.Contents();
    ghost var b := NextEntryBlock(img, f.g, f.fs, d);
    FsCoreBounds(img, f.g, f.nextb, f.nextinode, f.fs, -1, {});
    f.c.Shows(dirb);
    EntryIndexBound(f.fs, d);
    ghost var data := SetWord(f.c.slots[dirb].data, q * 32, ino);
    FsEntered(img, f.g, f.nextb, f.nextinode, f.fs, d, {}, Entry(ino, name), b);
    TableNlinks(img, img[b := data], f.g, -1);
    WritePins(f.c.slots, f.c.nblocks, dirb, data);
    SamePinsAlso(f.c.slots, f.c.slots[dirb := f.c.slots[dirb].(data := data)], f.g, f.nextb, f.fs, NONE);
    f.c.StoreWord(dirb, q * 32, ino);
    f.fs := f.fs.(log := f.fs.log + [Named(d, Entry(ino, name))]);
    SameTypes(f.c.slots, f.g, f.nextb, old(f.fs), f.fs, NONE);
  }

  lemma EntryIndexBound(fs: Fs, d: nat)
    ensures NextEntryIndex(fs, d) < 8
  {
  }

  /** Block types do not depend on names or on which inodes are files. */
  lemma SameTypes(slots: Slots, g: Geometry, nextb: nat, fs: Fs, fs': Fs, pending: Pending)
    requires PinsOk(slots, g, nextb, fs, pending) && fs'.role == fs.role && fs'.dirs == fs.dirs
    ensures PinsOk(slots, g, nextb, fs', pending)
  {
  }

  /** Pins the block of an inode that is in use. */
  method GetInode(f: Formatter, ino: nat) returns (r: GetResult)
    requires f.Inv(-1, NONE) && ino < f.nextinode
    modifies f.c
    ensures !r.PastEnd? && f.c.Valid() && (r.CacheFull? ==> Short(old(f.c.slots), 1))
    ensures r.Got? ==> f.Inv(-1, NONE) && f.Pins(r.slot, InodeBlock(f.g, ino)) && f.c.Contents() == old(f.c.Contents())
    ensures r.Got? ==> SamePins(old(f.c.slots), Unpin(f.c.slots, r.slot))
  {
    hide FsCore, SamePins, Unpin, PinsOk;
    assert NONE.Keys == {};
    FsCoreBounds(f.c.Contents(), f.g, f.nextb, f.nextinode, f.fs, -1, {});
    InodeInTable(f.g, ino);
    r := f.Get(InodeBlock(f.g, ino), InodesBlock, -1, NONE);
  }

  /** allocinode for an entry: the next inode, which becomes an empty regular file. */
  method AllocInode(f: Formatter, d: nat, dirb: nat, q: nat, name: seq<byte>) returns (r: Status, ino: nat, inob: nat)
    requires f.Inv(-1, NONE) && EntryReady(f, d, dirb, q, name) && ValidName(name) && 0 < f.nextinode
    modifies f`nextinode, f`fs, f.c
    ensures f.c.Valid() && ino == old(f.nextinode)
    ensures r == Aborted(OutOfInodes) <==> old(f.nextinode) == f.g.ninodes
    ensures Justified(r, f.g, old(f.c.slots), f.nextb, Demand(1, 0, 0, old(f.nextinode) + 1, true))
    ensures r.Done? ==> f.Inv(-1, NONE) && f.nextinode == ino + 1 && f.Pins(inob, InodeBlock(f.g, ino))
    ensures r.Done? ==> f.fs == old(f.fs).(files := old(f.fs).files[ino := []], log := old(f.fs).log + [Named(d, Entry(ino, name))])
    ensures r.Done? ==> NoBlocks(f.fs.role, ino) && IGet(f.c.Contents(), f.g, ino, NLINK) == 0
    ensures r.Done? ==> NlinksKept(old(f.c.Contents()), f.c.Contents(), f.g, -1)
    ensures r.Done? ==> SamePins(old(f.c.slots), Unpin(f.c.slots, inob))
  {
    hide FsCore, SamePins, Unpin, PinsOk, NlinksKept, HasRoom, NextEntryBlock, NextEntryIndex, NameAt, IGet, NoBlocks, Short;
    assert NONE.Keys == {};
    ino, inob := f.nextinode, 0;
    ghost var img, slots := f.c.Contents(), f.c.slots;
    FsCoreBounds(img, f.g, f.nextb, f.nextinode, f.fs, -1, {});
    if f.nextinode == f.g.ninodes {
      return Aborted(OutOfInodes), ino, 0;
    }
    InodeNumber(f.g, ino);
    FsNewInode(img, f.g, f.nextb, f.nextinode, f.fs, -1, {});
    NewInodeNoBlocks(img, f.g, f.nextb, f.nextinode, f.fs, -1, {});
    f.nextinode := f.nextinode + 1;
    f.fs := f.fs.(files := f.fs.files[ino := []]);
    SameTypes(f.c.slots, f.g, f.nextb, old(f.fs), f.fs, NONE);
    SameRoom(img, f.g, old(f.fs), f.fs, d);
    EnterInode(f, d, dirb, q, name, ino);
    NlinkOf(img, f.c.Contents(), f.g, ino);
    ghost var slots1 := f.c.slots;
    var res := GetInode(f, ino);
    if !res.Got? {
      ShortSame(slots, slots1, 1);
      return Aborted(CacheExhausted), ino, 0;
    }
    PinsNestFirst(slots, slots1, f.c.slots, res.slot);
    return Done, ino, res.slot;
  }

  lemma InodeNumber(g: Geometry, ino: nat)
    requires ValidGeometry(g) && ino < g.ninodes
    ensures ino < 0x1_0000_0000
  {
  }

  lemma NlinkOf(img: Image, img': Image, g: Geometry, i: nat)
    requires NlinksKept(img, img', g, -1) && i < g.ninodes
    ensures IGet(img', g, i, NLINK) == IGet(img, g, i, NLINK)
  {
  }

  lemma SameRoom(img: Image, g: Geometry, fs: Fs, fs': Fs, d: nat)
    requires fs'.log == fs.log
    ensures HasRoom(img, g, fs', d) == HasRoom(img, g, fs, d)
    ensures NextEntryBlock(img, g, fs', d) == NextEntryBlock(img, g, fs, d) && NextEntryIndex(fs', d) == NextEntryIndex(fs, d)
  {
  }
}
