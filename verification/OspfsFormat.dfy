/** ospfsformat (lab3/ospfsformat.c): building an OSPFS image, through the block cache, out of
    host files, directories and symbolic links. */
module OspfsFormat {
  import opened OspfsLayout
  import opened OspfsContents
  import opened BlockCache
  import opened OspfsFs
  import opened OspfsSteps
  import opened OspfsCosts

  /** The ways in which the program gives up. */
  datatype Abort = DiskFull | CacheExhausted | FileTooLarge | OutOfInodes | NameTooLong
  datatype Status = Done | Aborted(why: Abort)

  /** What an operation takes: how many cache slots at once, how many new blocks, how many more
      that it looks at without taking them, below which number all inodes are, and whether all
      names are short enough. */
  datatype Demand = Demand(slots: nat, blocks: nat, spare: nat, next: nat, names: bool)

  /** The program gives up only for want of what the operation takes. */
  ghost predicate Justified(r: Status, g: Geometry, slots: Slots, nextb: nat, need: Demand) {
    match r
    case Done => true
    case Aborted(DiskFull) => nextb + need.blocks + need.spare > g.nblocks
    case Aborted(CacheExhausted) => Short(slots, need.slots)
    case Aborted(OutOfInodes) => need.next > g.ninodes
    case Aborted(NameTooLong) => !need.names
    case Aborted(FileTooLarge) => false
  }

  /** What is too much for a part is too much for the whole. */
  lemma JustifiedMore(r: Status, g: Geometry, slots: Slots, nextb: nat, need: Demand, nextb': nat, need': Demand)
    requires Justified(r, g, slots, nextb, need) && need.slots <= need'.slots
    requires nextb + need.blocks + need.spare <= nextb' + need'.blocks + need'.spare
    requires need.next <= need'.next && (need'.names ==> need.names)
    ensures Justified(r, g, slots, nextb', need')
  {
  }

  lemma JustifiedSame(r: Status, g: Geometry, a: Slots, b: Slots, nextb: nat, need: Demand)
    requires Justified(r, g, b, nextb, need) && SamePins(a, b)
    ensures Justified(r, g, a, nextb, need)
  {
    if Short(b, need.slots) {
      ShortSame(a, b, need.slots);
    }
  }

  /** While one more slot is pinned there is one less to be had. */
  lemma JustifiedBefore(r: Status, g: Geometry, a: Slots, b: Slots, s: nat, nextb: nat, need: Demand)
    requires Justified(r, g, b, nextb, need) && SamePins(a, Unpin(b, s))
    ensures Justified(r, g, a, nextb, need.(slots := need.slots + 1))
  {
    if Short(b, need.slots) {
      ShortBefore(a, b, s, need.slots);
    }
  }

  /** What a block is used for decides the type under which it may be pinned. */
  ghost function TypeOf(g: Geometry, fs: Fs, b: nat): BlockType {
    if b < FREEMAP_BLK then SuperBlock
    else if b < g.firstinob then BitsBlock
    else if b < g.firstdata then InodesBlock
    else if b in fs.role && !fs.role[b].Data? then BitsBlock
    else if b in fs.role && fs.role[b].ino in fs.dirs then DirBlock
    else FileBlock
  }

  /** Blocks that have been handed out but have no owner yet, with the type they are used as. */
  type Pending = map<nat, BlockType>
  const NONE: Pending := map[]

  /** Pinned blocks have been handed out and are pinned under their own type. */
  ghost predicate PinsOk(slots: Slots, g: Geometry, nextb: nat, fs: Fs, pending: Pending) {
    forall i :: 0 <= i < |slots| && slots[i].busy > 0 ==>
      slots[i].bno < nextb &&
      slots[i].ty == if slots[i].bno in pending then pending[slots[i].bno] else TypeOf(g, fs, slots[i].bno)
  }

  lemma FreshPins(slots: Slots, g: Geometry, nextb: nat, fs: Fs, pending: Pending, ty: BlockType)
    requires PinsOk(slots, g, nextb, fs, pending)
    ensures forall i :: 0 <= i < |slots| && slots[i].busy > 0 ==> slots[i].bno != nextb
  {
  }

  lemma UsedPins(slots: Slots, g: Geometry, nextb: nat, fs: Fs, pending: Pending, b: nat)
    requires PinsOk(slots, g, nextb, fs, pending) && b !in pending
    ensures forall i :: 0 <= i < |slots| && slots[i].busy > 0 && slots[i].bno == b ==> slots[i].ty == TypeOf(g, fs, b)
  {
  }

  lemma SamePinsOk(slots: Slots, slots': Slots, g: Geometry, nextb: nat, fs: Fs, pending: Pending, s: nat)
    requires PinsOk(slots, g, nextb, fs, pending) && |slots'| == |slots| && s < |slots|
    requires forall i :: 0 <= i < |slots| && i != s ==> slots'[i] == slots[i]
    requires slots'[s].bno < nextb && slots'[s].bno !in pending && slots'[s].ty == TypeOf(g, fs, slots'[s].bno)
    ensures PinsOk(slots', g, nextb, fs, pending)
  {
  }

  lemma MorePins(slots: Slots, slots': Slots, g: Geometry, nextb: nat, fs: Fs, pending: Pending, ty: BlockType, s: nat)
    requires PinsOk(slots, g, nextb, fs, pending) && |slots'| == |slots| && s < |slots|
    requires forall i :: 0 <= i < |slots| && i != s ==> slots'[i] == slots[i]
    requires slots'[s].bno == nextb && slots'[s].ty == ty
    ensures PinsOk(slots', g, nextb + 1, fs, pending[nextb := ty])
  {
  }

  /** A pointer block that gets its owner is pinned as what it now is. */
  lemma PointerPins(slots: Slots, slots': Slots, g: Geometry, nextb: nat, fs: Fs, pending: Pending, b: nat, r: Role)
    requires PinsOk(slots, g, nextb, fs, pending[b := BitsBlock]) && SamePins(slots, slots')
    requires !r.Data? && b !in fs.role && b !in pending && 2 <= g.firstinob <= g.firstdata <= b
    ensures PinsOk(slots', g, nextb, fs.(role := fs.role[b := r]), pending)
  {
  }

  /** The same for a data block of inode i. */
  lemma DataPins(slots: Slots, slots': Slots, g: Geometry, nextb: nat, fs: Fs, b: nat, i: nat, n: nat)
    requires PinsOk(slots, g, nextb, fs, map[b := DataType(fs, i)]) && SamePins(slots, slots')
    requires b !in fs.role && 2 <= g.firstinob <= g.firstdata <= b
    ensures PinsOk(slots', g, nextb, fs.(role := fs.role[b := Data(i, n)]), NONE)
  {
  }

  ghost function DataType(fs: Fs, i: nat): BlockType {
    if i in fs.dirs then DirBlock else FileBlock
  }

  /** Writing through a pinned slot does not change what is pinned. */
  lemma WritePins(slots: Slots, nblocks: nat, s: nat, data: Block)
    requires ValidSlots(slots, nblocks) && s < |slots| && slots[s].used != 0
    ensures SamePins(slots, slots[s := slots[s].(data := data)])
  {
  }

  /** Slots a, then one more pin in s, then changes that keep the pins. */
  lemma PinsNest(a: Slots, b: Slots, c: Slots, s: nat)
    requires SamePins(a, Unpin(b, s)) && SamePins(b, c)
    ensures SamePins(a, Unpin(c, s))
  {
  }

  /** One more pin in s, then another one in t. */
  lemma PinsNest2(a: Slots, b: Slots, c: Slots, s: nat, t: nat)
    requires SamePins(a, Unpin(b, s)) && SamePins(b, Unpin(c, t))
    ensures SamePins(a, Unpin(Unpin(c, t), s))
  {
  }

  lemma StillPinned(a: Slots, b: Slots, s: nat, i: nat)
    requires SamePins(a, Unpin(b, s)) && i < |a| && a[i].busy > 0
    ensures |b| == |a| && b[i].bno == a[i].bno && b[i].busy > 0 && b[i].used != 0
  {
  }

  lemma UnpinOk(slots: Slots, g: Geometry, nextb: nat, fs: Fs, pending: Pending, s: nat)
    requires PinsOk(slots, g, nextb, fs, pending)
    ensures PinsOk(Unpin(slots, s), g, nextb, fs, pending)
  {
  }

  /** The list of host inodes already copied, newest first. */
  datatype Hardlink = Hardlink(host: nat, ino: nat)

  function GeometryOf(nblocks: nat, ninodes: nat): Geometry {
    var nbitblock := (nblocks + 8191) / 8192;
    Geometry(nblocks, ninodes, FREEMAP_BLK + nbitblock, FREEMAP_BLK + nbitblock + (ninodes + 15) / 16)
  }

  lemma JustifiedBefore2(r: Status, g: Geometry, a: Slots, b: Slots, s: nat, t: nat, nextb: nat, need: Demand)
    requires Justified(r, g, b, nextb, need) && SamePins(a, Unpin(Unpin(b, s), t))
    ensures Justified(r, g, a, nextb, need.(slots := need.slots + 2))
  {
    if Short(b, need.slots) {
      PinnedBy(Unpin(b, s), b, s);
      PinnedBy(a, Unpin(b, s), t);
    }
  }

  class Formatter {
    const g: Geometry
    const c: Cache
    var nextb: nat
    var nextinode: nat
    var hardlinks: seq<Hardlink>
    ghost var fs: Fs

    ghost predicate Inv(open: int, pending: Pending)
      reads this, c
    {
      && c.Valid() && c.nblocks == g.nblocks
      && FsCore(c.Contents(), g, nextb, nextinode, fs, open, pending.Keys)
      && PinsOk(c.slots, g, nextb, fs, pending)
    }

    /** Slot s pins block b. */
    ghost predicate Pins(s: nat, b: nat)
      reads this, c
    {
      |c.slots| == NSLOTS && s < NSLOTS && Holds(c.slots[s], b) && c.slots[s].busy > 0
    }

    /** main before opendisk: a disk of zeros and an empty cache. */
    constructor (nblocks: nat, ninodes: nat)
      ensures g == GeometryOf(nblocks, ninodes) && c.nblocks == nblocks && fresh(c) && c.Valid() && hardlinks == []
      ensures c.Contents() == seq(nblocks, _ => ZERO)
      ensures forall i :: 0 <= i < NSLOTS ==> c.slots[i].busy == 0
    {
      g := GeometryOf(nblocks, ninodes);
      c := new Cache(nblocks);
      nextb, nextinode, hardlinks := 0, 0, [];
      fs := Fs(map[], map[], {}, map[], []);
    }

    /** putblk. */
    method Release(s: nat, ghost open: int, ghost pending: Pending)
      requires Inv(open, pending) && s < NSLOTS && c.slots[s].busy > 0
      modifies c`slots
      ensures Inv(open, pending) && c.slots == Unpin(old(c.slots), s) && c.Contents() == old(c.Contents())
    {
      UnpinOk(c.slots, g, nextb, fs, pending, s);
      hide FsCore, PinsOk, Unpin;
      c.PutBlk(s);
    }

    lemma HandedOut(slots: Slots, img: Image, b: nat, ty: BlockType, s: nat, open: int, pending: Pending)
      requires c.Valid() && c.nblocks == g.nblocks && nextb == b + 1 && b < g.nblocks
      requires FsCore(img, g, b, nextinode, fs, open, pending.Keys) && PinsOk(slots, g, b, fs, pending)
      requires |slots| == NSLOTS && s < NSLOTS && c.slots[s].bno == b && c.slots[s].ty == ty
      requires forall i :: 0 <= i < NSLOTS && i != s ==> c.slots[i] == slots[i]
      requires |img| == g.nblocks && c.Contents() == img[b := ZERO]
      ensures Inv(open, pending[b := ty])
    {
      hide FsCore, PinsOk;
      MorePins(slots, c.slots, g, b, fs, pending, ty, s);
      FsFresh(img, g, b, nextinode, fs, open, pending.Keys, ZERO, 0);
      assert pending[b := ty].Keys == pending.Keys + {b};
    }

    /** getblk(nextb++, 1, ty). */
    method Fresh(ty: BlockType, ghost open: int, ghost pending: Pending) returns (r: GetResult)
      requires Inv(open, pending)
      modifies this`nextb, c
      ensures nextb == old(nextb) + 1 && c.Valid()
      ensures r.PastEnd? ==> old(nextb) == g.nblocks
      ensures r.CacheFull? ==> Short(old(c.slots), 1)
      ensures r.Got? ==> old(nextb) < g.nblocks && c.Contents() == old(c.Contents())[old(nextb) := ZERO]
      ensures r.Got? ==> Inv(open, pending[old(nextb) := ty]) && Pins(r.slot, old(nextb))
      ensures r.Got? ==> SamePins(old(c.slots), Unpin(c.slots, r.slot))
    {
      FreshPins(c.slots, g, nextb, fs, pending, ty);
      hide FsCore, SamePins, Unpin, PinsOk, Short, AllPinned, LeastRecent, Cache.Contents, ValidSlots;
      FsCoreBounds(c.Contents(), g, nextb, nextinode, fs, open, pending.Keys);
      var b := nextb;
      nextb := nextb + 1;
      r := c.GetBlk(b, true, ty);
      if r.Got? {
        HandedOut(old(c.slots), old(c.Contents()), b, ty, r.slot, open, pending);
      }
    }

    /** getblk(b, 0, ty) for a block in use. */
    method Get(b: nat, ty: BlockType, ghost open: int, ghost pending: Pending) returns (r: GetResult)
      requires Inv(open, pending) && 1 <= b < nextb && b !in pending && TypeOf(g, fs, b) == ty
      modifies c
      ensures !r.PastEnd? && c.Valid() && (r.CacheFull? ==> Short(old(c.slots), 1))
      ensures r.Got? ==> Inv(open, pending) && Pins(r.slot, b) && c.Contents() == old(c.Contents())
      ensures r.Got? ==> SamePins(old(c.slots), Unpin(c.slots, r.slot))
    {
      UsedPins(c.slots, g, nextb, fs, pending, b);
      hide FsCore, SamePins, Unpin, PinsOk, Short, AllPinned, LeastRecent, Cache.Contents, ValidSlots;
      FsCoreBounds(c.Contents(), g, nextb, nextinode, fs, open, pending.Keys);
      r := c.GetBlk(b, false, ty);
      if r.Got? {
        SamePinsOk(old(c.slots), c.slots, g, nextb, fs, pending, r.slot);
      }
    }

    /** A new empty pointer block, hooked in word w of the block in slot s. */
    method NewPointerBlock(ghost r: Role, s: nat, w: nat, ghost pending: Pending) returns (res: GetResult)
      requires !r.Data? && r.ino < nextinode && r.ino in Live(fs) && Inv(r.ino, pending)
      requires Anchored(fs.role, Live(fs), r) && r !in fs.role.Values
      requires w < 256 && w == SlotWord(r) && Pins(s, SlotBlock(c.Contents(), g, r))
      modifies this`nextb, this`fs, c
      ensures c.Valid() && fs == old(fs).(role := fs.role) && nextb == old(nextb) + 1
      ensures res.PastEnd? ==> old(nextb) == g.nblocks
      ensures res.CacheFull? ==> Short(old(c.slots), 1)
      ensures res.Got? ==> Inv(r.ino, pending) && SamePins(old(c.slots), Unpin(c.slots, res.slot))
      ensures res.Got? ==> r in fs.role.Values && Pins(res.slot, Ref(c.Contents(), g, r))
      ensures res.Got? ==> Rebuilt(old(c.Contents()), c.Contents(), g, old(fs).role, fs.role, r.ino)
      ensures res.Got? ==> PendingKept(old(c.Contents()), c.Contents(), pending.Keys)
    {
      hide FsCore, Owned, Rebuilt, Ref, SlotBlock, Anchored, PendingKept, PinsOk, SamePins, Unpin, Short;
      ghost var img, role := c.Contents(), fs.role;
      FsCoreBounds(img, g, nextb, nextinode, fs, r.ino, pending.Keys);
      var b := nextb;
      res := Fresh(BitsBlock, r.ino, pending);
      if res.Got? {
        PointerHooked(img, g, b, nextinode, fs, r, pending.Keys);
        ghost var slots1 := c.slots;
        StillPinned(old(c.slots), slots1, res.slot, s);
        WritePins(slots1, c.nblocks, s, SetWord(slots1[s].data, w, b));
        c.StoreWord(s, w, b);
        PinsNest(old(c.slots), slots1, c.slots, res.slot);
        PointerPins(slots1, c.slots, g, nextb, fs, pending, b, r);
        fs := fs.(role := role[b := r]);
      }
    }

    /** The pattern of storeblk for each pointer block: the pointer stands in word w of the
        block in slot s; if it is zero, a new empty block is hooked there. */
    method GetPointerBlock(ghost r: Role, s: nat, w: nat, ghost pending: Pending) returns (res: GetResult)
      requires !r.Data? && r.ino < nextinode && r.ino in Live(fs) && Inv(r.ino, pending)
      requires Anchored(fs.role, Live(fs), r)
      requires w < 256 && w == SlotWord(r) && Pins(s, SlotBlock(c.Contents(), g, r))
      modifies this`nextb, this`fs, c
      ensures c.Valid() && fs == old(fs).(role := fs.role) && old(nextb) <= nextb <= old(nextb) + 1
      ensures r in old(fs).role.Values ==> nextb == old(nextb) && !res.PastEnd?
      ensures res.PastEnd? ==> old(nextb) == g.nblocks
      ensures res.CacheFull? ==> Short(old(c.slots), 1)
      ensures res.Got? ==> Inv(r.ino, pending) && SamePins(old(c.slots), Unpin(c.slots, res.slot))
      ensures res.Got? ==> r in fs.role.Values && Pins(res.slot, Ref(c.Contents(), g, r))
      ensures res.Got? ==> Rebuilt(old(c.Contents()), c.Contents(), g, old(fs).role, fs.role, r.ino)
      ensures res.Got? ==> PendingKept(old(c.Contents()), c.Contents(), pending.Keys)
    {
      hide FsCore, Owned, Rebuilt, Ref, SlotBlock, Anchored, PendingKept, SamePins, Unpin, PinsOk, Short;
      ghost var img := c.Contents();
      FsCoreBounds(img, g, nextb, nextinode, fs, r.ino, pending.Keys);
      RefExact(img, g, fs.role, Live(fs), r);
      c.Shows(s);
      RefAsWord(img, g, r);
      var p := Word(c.slots[s].data, w);
      if p == 0 {
        res := NewPointerBlock(r, s, w, pending);
      } else {
        OwnedBlock(img, g, nextb, nextinode, fs, r.ino, pending.Keys, p);
        res := Get(p, BitsBlock, r.ino, pending);
        NothingChanged(img, g, fs.role, r.ino, pending.Keys);
      }
    }

    /** The last step of storeblk: the pointer to the new data block. */
    method HookDataBlock(ghost i: nat, ghost n: nat, s: nat, w: nat, b: nat)
      requires i < nextinode && i in Live(fs) && Inv(i, map[b := DataType(fs, i)])
      requires HasBlocks(fs.role, i, n) && n < MAXFILEBLKS && Anchored(fs.role, Live(fs), Data(i, n))
      requires b < g.nblocks && w < 256 && w == SlotWord(Data(i, n)) && Pins(s, SlotBlock(c.Contents(), g, Data(i, n)))
      modifies this`fs, c
      ensures Inv(i, NONE) && fs == old(fs).(role := fs.role) && SamePins(old(c.slots), c.slots)
      ensures Grown(old(c.Contents()), c.Contents(), g, old(fs).role, fs.role, i, n, b)
    {
      hide FsCore, Owned, Grown, Ref, SlotBlock, Anchored, HasBlocks, PinsOk, SamePins;
      ghost var img := c.Contents();
      ghost var pending := map[b := DataType(fs, i)];
      FsCoreBounds(img, g, nextb, nextinode, fs, i, pending.Keys);
      PendingOut(img, g, nextb, nextinode, fs, i, pending.Keys, b);
      DataHooked(img, g, nextb, nextinode, fs, i, n, b, pending.Keys);
      assert pending.Keys - {b} == NONE.Keys;
      WritePins(c.slots, c.nblocks, s, SetWord(c.slots[s].data, w, b));
      c.StoreWord(s, w, b);
      DataPins(old(c.slots), c.slots, g, nextb, fs, b, i, n);
      fs := fs.(role := fs.role[b := Data(i, n)]);
    }

    /** storeblk for a block under the indirect block. */
    method StoreIndirect(ino: nat, inob: nat, bno: nat, nblk: nat) returns (r: Status)
      requires ino < nextinode && ino in Live(fs) && NDIRECT <= nblk < NDIRECT + NINDIRECT
      requires bno < g.nblocks && Inv(ino, map[bno := DataType(fs, ino)]) && Pins(inob, InodeBlock(g, ino))
      requires HasBlocks(fs.role, ino, nblk)
      modifies this`nextb, this`fs, c
      ensures c.Valid() && fs == old(fs).(role := fs.role)
      ensures nextb <= old(nextb) + PointerCost(nblk) && Justified(r, g, old(c.slots), old(nextb), Demand(1, PointerCost(nblk), 0, 0, true))
      ensures r.Done? ==> Inv(ino, NONE) && SamePins(old(c.slots), c.slots)
      ensures r.Done? ==> Grown(old(c.Contents()), c.Contents(), g, old(fs).role, fs.role, ino, nblk, bno)
    {
      hide FsCore, Owned, Grown, Rebuilt, Ref, HasBlocks, PendingKept, PinsOk, SlotBlock, SamePins, Unpin, Short;
      ghost var img, role, pending := c.Contents(), fs.role, map[bno := DataType(fs, ino)];
      FsCoreBounds(img, g, nextb, nextinode, fs, ino, pending.Keys);
      SlotIsParentRef(img, g, Ind(ino));
      PointersThere(img, g, nextb, nextinode, fs, ino, pending.Keys, ino, nblk);
      var bindir := GetPointerBlock(Ind(ino), inob, InodeWord(ino, INDIRECT), pending);
      if !bindir.Got? {
        return Aborted(if bindir.PastEnd? then DiskFull else CacheExhausted);
      }
      ghost var img1, role1, slots1 := c.Contents(), fs.role, c.slots;
      RebuiltHas(img, img1, g, role, role1, ino, nblk);
      SlotIsParentRef(img1, g, Data(ino, nblk));
      HookDataBlock(ino, nblk, bindir.slot, nblk - NDIRECT, bno);
      PendingBlock(img, img1, pending.Keys, bno);
      RebuiltGrown(img, img1, c.Contents(), g, role, role1, fs.role, ino, nblk, bno);
      PinsNest(old(c.slots), slots1, c.slots, bindir.slot);
      StillBusy(slots1, c.slots, bindir.slot);
      Release(bindir.slot, ino, NONE);
      return Done;
    }

    /** The part of storeblk below the doubly indirect block, which is in slot s. */
    method StoreLeaf(ino: nat, s: nat, bno: nat, nblk: nat) returns (r: Status)
      requires ino < nextinode && ino in Live(fs) && NDIRECT + NINDIRECT <= nblk < MAXFILEBLKS
      requires bno < g.nblocks && Inv(ino, map[bno := DataType(fs, ino)]) && HasBlocks(fs.role, ino, nblk)
      requires Ind2(ino) in fs.role.Values && Pins(s, Ref(c.Contents(), g, Ind2(ino)))
      modifies this`nextb, this`fs, c
      ensures c.Valid() && fs == old(fs).(role := fs.role)
      ensures nextb <= old(nextb) + LeafCost(nblk) && Justified(r, g, old(c.slots), old(nextb), Demand(1, LeafCost(nblk), 0, 0, true))
      ensures r.Done? ==> Inv(ino, NONE) && SamePins(old(c.slots), c.slots)
      ensures r.Done? ==> Grown(old(c.Contents()), c.Contents(), g, old(fs).role, fs.role, ino, nblk, bno)
    {
      hide FsCore, Owned, Grown, Rebuilt, Ref, HasBlocks, PendingKept, PinsOk, SlotBlock, SamePins, Unpin, Short;
      ghost var img, role, pending := c.Contents(), fs.role, map[bno := DataType(fs, ino)];
      FsCoreBounds(img, g, nextb, nextinode, fs, ino, pending.Keys);
      var off := nblk - (NDIRECT + NINDIRECT);
      var j := off / NINDIRECT;
      SlotIsParentRef(img, g, Ind2Ind(ino, j));
      PointersThere(img, g, nextb, nextinode, fs, ino, pending.Keys, ino, nblk);
      var bindir := GetPointerBlock(Ind2Ind(ino, j), s, j, pending);
      if !bindir.Got? {
        return Aborted(if bindir.PastEnd? then DiskFull else CacheExhausted);
      }
      ghost var img1, role1, slots1 := c.Contents(), fs.role, c.slots;
      RebuiltHas(img, img1, g, role, role1, ino, nblk);
      SlotIsParentRef(img1, g, Data(ino, nblk));
      HookDataBlock(ino, nblk, bindir.slot, off % NINDIRECT, bno);
      PendingBlock(img, img1, pending.Keys, bno);
      RebuiltGrown(img, img1, c.Contents(), g, role, role1, fs.role, ino, nblk, bno);
      PinsNest(old(c.slots), slots1, c.slots, bindir.slot);
      StillBusy(slots1, c.slots, bindir.slot);
      Release(bindir.slot, ino, NONE);
      return Done;
    }

    /** storeblk for a block under the doubly indirect block. */
    method StoreIndirect2(ino: nat, inob: nat, bno: nat, nblk: nat) returns (r: Status)
      requires ino < nextinode && ino in Live(fs) && NDIRECT + NINDIRECT <= nblk < MAXFILEBLKS
      requires bno < g.nblocks && Inv(ino, map[bno := DataType(fs, ino)]) && Pins(inob, InodeBlock(g, ino))
      requires HasBlocks(fs.role, ino, nblk)
      modifies this`nextb, this`fs, c
      ensures c.Valid() && fs == old(fs).(role := fs.role)
      ensures nextb <= old(nextb) + PointerCost(nblk) && Justified(r, g, old(c.slots), old(nextb), Demand(2, PointerCost(nblk), 0, 0, true))
      ensures r.Done? ==> Inv(ino, NONE) && SamePins(old(c.slots), c.slots)
      ensures r.Done? ==> Grown(old(c.Contents()), c.Contents(), g, old(fs).role, fs.role, ino, nblk, bno)
    {
      hide FsCore, Owned, Grown, Rebuilt, Ref, HasBlocks, PendingKept, PinsOk, SlotBlock, SamePins, Unpin, Short;
      ghost var img, role, pending := c.Contents(), fs.role, map[bno := DataType(fs, ino)];
      FsCoreBounds(img, g, nextb, nextinode, fs, ino, pending.Keys);
      SlotIsParentRef(img, g, Ind2(ino));
      PointersThere(img, g, nextb, nextinode, fs, ino, pending.Keys, ino, nblk);
      var bindir2 := GetPointerBlock(Ind2(ino), inob, InodeWord(ino, INDIRECT2), pending);
      if !bindir2.Got? {
        if bindir2.CacheFull? {
          ShortMore(old(c.slots), 1, 2);
        }
        return Aborted(if bindir2.PastEnd? then DiskFull else CacheExhausted);
      }
      ghost var img1, role1, slots1, nextb1 := c.Contents(), fs.role, c.slots, nextb;
      RebuiltHas(img, img1, g, role, role1, ino, nblk);
      r := StoreLeaf(ino, bindir2.slot, bno, nblk);
      if r.Aborted? {
        JustifiedBefore(r, g, old(c.slots), slots1, bindir2.slot, nextb1, Demand(1, LeafCost(nblk), 0, 0, true));
        JustifiedMore(r, g, old(c.slots), nextb1, Demand(2, LeafCost(nblk), 0, 0, true), old(nextb), Demand(2, PointerCost(nblk), 0, 0, true));
        return;
      }
      PendingBlock(img, img1, pending.Keys, bno);
      RebuiltGrown(img, img1, c.Contents(), g, role, role1, fs.role, ino, nblk, bno);
      PinsNest(old(c.slots), slots1, c.slots, bindir2.slot);
      StillBusy(slots1, c.slots, bindir2.slot);
      Release(bindir2.slot, ino, NONE);
      return Done;
    }

    /** storeblk: makes the block in slot sb the nblk-th block of the inode whose block is in
        slot inob, with whatever pointer blocks that takes. */
    method StoreBlk(ino: nat, inob: nat, sb: nat, nblk: nat) returns (r: Status)
      requires c.Valid() && sb < NSLOTS && ino < nextinode && ino in Live(fs) && c.slots[sb].bno < g.nblocks
      requires Inv(ino, map[c.slots[sb].bno := DataType(fs, ino)]) && Pins(inob, InodeBlock(g, ino))
      requires HasBlocks(fs.role, ino, nblk)
      modifies this`nextb, this`fs, c
      ensures c.Valid() && fs == old(fs).(role := fs.role)
      ensures nextb <= old(nextb) + PointerCost(nblk)
      ensures r == Aborted(FileTooLarge) ==> nblk == MAXFILEBLKS
      ensures nblk < MAXFILEBLKS ==> Justified(r, g, old(c.slots), old(nextb), Demand(2, PointerCost(nblk), 0, 0, true))
      ensures r.Done? ==> Inv(ino, NONE) && SamePins(old(c.slots), c.slots)
      ensures r.Done? ==> Grown(old(c.Contents()), c.Contents(), g, old(fs).role, fs.role, ino, nblk, old(c.slots[sb].bno))
    {
      hide FsCore, Owned, Grown, Rebuilt, Ref, SlotBlock, HasBlocks, PendingKept, PinsOk, SamePins, Unpin, Short;
      HasBlocksBound(fs.role, ino, nblk);
      var bno := c.slots[sb].bno;
      if nblk < NDIRECT {
        SlotIsParentRef(c.Contents(), g, Data(ino, nblk));
        HookDataBlock(ino, nblk, inob, InodeWord(ino, DIRECT + nblk), bno);
        return Done;
      } else if nblk < NDIRECT + NINDIRECT {
        r := StoreIndirect(ino, inob, bno, nblk);
        JustifiedMore(r, g, old(c.slots), old(nextb), Demand(1, PointerCost(nblk), 0, 0, true), old(nextb), Demand(2, PointerCost(nblk), 0, 0, true));
      } else if nblk < MAXFILEBLKS {
        r := StoreIndirect2(ino, inob, bno, nblk);
      } else {
        return Aborted(FileTooLarge);
      }
    }

    /** Reads the pointer for a block out of the pinned block that holds it and pins the block. */
    method Follow(ghost r: Role, s: nat, w: nat, ty: BlockType) returns (res: GetResult)
      requires Inv(-1, NONE) && PathBlock(c.Contents(), g, nextb, fs, r, ty)
      requires w < 256 && w == SlotWord(r) && Pins(s, SlotBlock(c.Contents(), g, r))
      modifies c
      ensures !res.PastEnd? && c.Valid() && (res.CacheFull? ==> Short(old(c.slots), 1))
      ensures res.Got? ==> Inv(-1, NONE) && c.Contents() == old(c.Contents()) && Pins(res.slot, Ref(c.Contents(), g, r))
      ensures res.Got? ==> SamePins(old(c.slots), Unpin(c.slots, res.slot))
    {
      hide FsCore, Owned, SlotBlock, PinsOk, SamePins, Unpin, Short;
      c.Shows(s);
      RefAsWord(c.Contents(), g, r);
      assert Word(c.slots[s].data, w) == Ref(c.Contents(), g, r);
      hide Ref, Word;
      res := Get(Word(c.slots[s].data, w), ty, -1, NONE);
    }

    /** The walk of allocdirentry through one pointer block p to a directory block. */
    method GetVia(ghost p: Role, s: nat, w: nat, ghost d: nat, ghost nblk: nat, off: nat) returns (r: GetResult)
      requires Inv(-1, NONE) && Parent(Data(d, nblk)) == p && off < 256 && off == SlotWord(Data(d, nblk))
      requires PathBlock(c.Contents(), g, nextb, fs, p, BitsBlock) && PathBlock(c.Contents(), g, nextb, fs, Data(d, nblk), DirBlock)
      requires !p.Data? && w < 256 && w == SlotWord(p) && Pins(s, SlotBlock(c.Contents(), g, p))
      modifies c
      ensures !r.PastEnd? && c.Valid() && (r.CacheFull? ==> Short(old(c.slots), 2))
      ensures r.Got? ==> Inv(-1, NONE) && c.Contents() == old(c.Contents()) && Pins(r.slot, Ref(c.Contents(), g, Data(d, nblk)))
      ensures r.Got? ==> SamePins(old(c.slots), Unpin(c.slots, r.slot))
    {
      hide FsCore, Owned, Ref, SlotBlock, PinsOk, SamePins, Unpin, Pinned, PathBlock;
      SlotIsParentRef(c.Contents(), g, Data(d, nblk));
      var bindir := Follow(p, s, w, BitsBlock);
      if !bindir.Got? {
        return bindir;
      }
      ghost var slots1 := c.slots;
      r := Follow(Data(d, nblk), bindir.slot, off, DirBlock);
      if !r.Got? {
        ShortBefore(old(c.slots), slots1, bindir.slot, 1);
        return;
      }
      StillPinned(slots1, c.slots, r.slot, bindir.slot);
      PinsNest2(old(c.slots), slots1, c.slots, bindir.slot, r.slot);
      SwapUnpin(c.slots, bindir.slot, r.slot);
      TwoRoles(c.Contents(), g, nextb, fs, p, Data(d, nblk));
      TwoPins(c.slots, bindir.slot, r.slot);
      Release(bindir.slot, -1, NONE);
    }

    /** The walk of allocdirentry to the nblk-th block of a directory. */
    method GetDirBlock(d: nat, dslot: nat, nblk: nat) returns (r: GetResult)
      requires Inv(-1, NONE) && d in fs.dirs && Pins(dslot, InodeBlock(g, d))
      requires Data(d, nblk) in fs.role.Values
      modifies c
      ensures !r.PastEnd? && c.Valid() && (r.CacheFull? ==> Short(old(c.slots), 3))
      ensures r.Got? ==> Inv(-1, NONE) && c.Contents() == old(c.Contents()) && Pins(r.slot, Ref(c.Contents(), g, Data(d, nblk)))
      ensures r.Got? ==> SamePins(old(c.slots), Unpin(c.slots, r.slot))
    {
      hide FsCore, Owned, Ref, SlotBlock, PinsOk, SamePins, Unpin, Pinned, PathBlock;
      ghost var img := c.Contents();
      assert NONE.Keys == {};
      DirPath(img, g, nextb, nextinode, fs, d, nblk);
      SlotIsParentRef(img, g, Data(d, nblk));
      if nblk >= NDIRECT + NINDIRECT {
        var off := nblk - NDIRECT - NINDIRECT;
        SlotIsParentRef(img, g, Ind2(d));
        SlotIsParentRef(img, g, Ind2Ind(d, off / NINDIRECT));
        var bindir2 := Follow(Ind2(d), dslot, InodeWord(d, INDIRECT2), BitsBlock);
        if !bindir2.Got? {
          return bindir2;
        }
        ghost var slots1 := c.slots;
        r := GetVia(Ind2Ind(d, off / NINDIRECT), bindir2.slot, off / NINDIRECT, d, nblk, off % NINDIRECT);
        if !r.Got? {
          ShortBefore(old(c.slots), slots1, bindir2.slot, 2);
          return;
        }
        StillPinned(slots1, c.slots, r.slot, bindir2.slot);
        PinsNest2(old(c.slots), slots1, c.slots, bindir2.slot, r.slot);
        SwapUnpin(c.slots, bindir2.slot, r.slot);
        TwoRoles(img, g, nextb, fs, Ind2(d), Data(d, nblk));
        TwoPins(c.slots, bindir2.slot, r.slot);
        Release(bindir2.slot, -1, NONE);
      } else if nblk >= NDIRECT {
        SlotIsParentRef(img, g, Ind(d));
        r := GetVia(Ind(d), dslot, InodeWord(d, INDIRECT), d, nblk, nblk - NDIRECT);
      } else {
        r := Follow(Data(d, nblk), dslot, InodeWord(d, DIRECT + nblk), DirBlock);
      }
    }
  }

  lemma TwoRoles(img: Image, g: Geometry, nextb: nat, fs: Fs, p: Role, r: Role)
    requires PathBlock(img, g, nextb, fs, p, BitsBlock) && PathBlock(img, g, nextb, fs, r, DirBlock)
    ensures Ref(img, g, p) != Ref(img, g, r)
  {
    hide Ref;
  }

  /** The blocks on the way to a data block of a directory. */
  lemma DirPath(img: Image, g: Geometry, nextb: nat, nextinode: nat, fs: Fs, d: nat, k: nat)
    requires FsCore(img, g, nextb, nextinode, fs, -1, {}) && d in fs.dirs && Data(d, k) in fs.role.Values
    ensures PathBlock(img, g, nextb, fs, Data(d, k), DirBlock) && k < MAXFILEBLKS
    ensures NDIRECT <= k < NDIRECT + NINDIRECT ==> PathBlock(img, g, nextb, fs, Ind(d), BitsBlock)
    ensures k >= NDIRECT + NINDIRECT ==> PathBlock(img, g, nextb, fs, Ind2(d), BitsBlock)
    ensures k >= NDIRECT + NINDIRECT ==> PathBlock(img, g, nextb, fs, Ind2Ind(d, (k - 266) / 256), BitsBlock)
  {
    hide FilesOk, DirsOk, LinksOk, InodesOk, LowOk, Ref;
    var b :| b in fs.role && fs.role[b] == Data(d, k);
    assert Anchored(fs.role, Live(fs), fs.role[b]);
    if k >= NDIRECT {
      var c :| c in fs.role && fs.role[c] == Parent(Data(d, k));
      assert Anchored(fs.role, Live(fs), fs.role[c]);
      if k >= NDIRECT + NINDIRECT {
        var e :| e in fs.role && fs.role[e] == Ind2(d);
      }
    }
  }

  /** The block with role r is in use and has this type. */
  ghost predicate PathBlock(img: Image, g: Geometry, nextb: nat, fs: Fs, r: Role, ty: BlockType) {
    1 <= Ref(img, g, r) < nextb && TypeOf(g, fs, Ref(img, g, r)) == ty
  }

  lemma SwapUnpin(slots: Slots, s: nat, t: nat)
    ensures Unpin(Unpin(slots, s), t) == Unpin(Unpin(slots, t), s)
  {
  }

  /** Of two pins, releasing one leaves the other. */
  lemma TwoPins(slots: Slots, s: nat, t: nat)
    requires s < |slots| && t < |slots| && slots[s].busy > 0 && slots[t].busy > 0 && slots[s].bno != slots[t].bno
    ensures Unpin(slots, s)[t] == slots[t] && |Unpin(slots, s)| == |slots|
  {
  }

  lemma HasBlocksBound(role: Roles, i: nat, n: nat)
    requires HasBlocks(role, i, n)
    ensures n <= MAXFILEBLKS
  {
  }

  lemma StillBusy(a: Slots, b: Slots, s: nat)
    requires SamePins(a, b) && s < |a| && a[s].busy > 0
    ensures |b| == |a| && b[s].bno == a[s].bno && b[s].busy > 0 && b[s].used != 0
  {
  }

  lemma OwnedBlock(img: Image, g: Geometry, nextb: nat, nextinode: nat, fs: Fs, open: int, pending: set<nat>, b: nat)
    requires FsCore(img, g, nextb, nextinode, fs, open, pending) && b in fs.role
    ensures g.firstdata <= b < nextb && b !in pending
  {
    hide FilesOk, DirsOk, LinksOk, InodesOk;
  }

  lemma PendingOut(img: Image, g: Geometry, nextb: nat, nextinode: nat, fs: Fs, open: int, pending: set<nat>, b: nat)
    requires FsCore(img, g, nextb, nextinode, fs, open, pending) && b in pending
    ensures g.firstdata <= b < nextb && b !in fs.role
  {
    hide FilesOk, DirsOk, LinksOk, InodesOk;
  }
}
