/** writefile, addsymlink and writedirectory of ospfsformat (lab3/ospfsformat.c): copying the
    host's files, links and directories into the image. */
module OspfsWrite {
  import opened OspfsLayout
  import opened OspfsContents
  import opened BlockCache
  import opened OspfsFs
  import opened OspfsCosts
  import opened OspfsSteps
  import opened OspfsFormat
  import opened OspfsEntry
  import opened OspfsHost

  /** The state of the run, without the block numbers. */
  ghost function Run(f: Formatter): Built
    reads f
  {
    Built(f.fs.(role := map[]), f.nextinode, f.hardlinks)
  }

  /** What holds between two files: a sound image with exact link counts. */
  ghost predicate Sound(f: Formatter)
    reads f, f.c
  {
    f.Inv(-1, NONE) && NlinksOk(f.c.Contents(), f.g, f.fs) && TableOk(f.hardlinks, f.fs) && 1 < f.nextinode
  }

  // ---------------------------------------------------------------- the data of a file

  /** A block whose first bytes are the chunk; getblk cleared the rest. */
  function Padded(chunk: seq<byte>): Block
    requires |chunk| <= 1024
  {
    chunk + ZERO[|chunk|..]
  }

  /** Slot s holds the only pin on the block that would be handed out next. */
  ghost predicate Peeked(f: Formatter, open: int, s: nat)
    reads f, f.c
  {
    && f.c.Valid() && f.c.nblocks == f.g.nblocks && f.nextb < f.g.nblocks
    && FsCore(f.c.Contents(), f.g, f.nextb, f.nextinode, f.fs, open, {})
    && f.Pins(s, f.nextb) && f.c.slots[s].busy == 1 && f.c.slots[s].ty == FileBlock
    && PinsOk(Unpin(f.c.slots, s), f.g, f.nextb, f.fs, NONE)
  }

  lemma PeekPins(a: Slots, b: Slots, g: Geometry, nextb: nat, fs: Fs, s: nat)
    requires PinsOk(a, g, nextb, fs, NONE) && |a| == |b| && s < |a| && a[s].busy == 0 && b[s].busy == 1
    requires forall i :: 0 <= i < |a| && i != s ==> b[i] == a[i]
    ensures PinsOk(Unpin(b, s), g, nextb, fs, NONE)
  {
  }

  /** getblk(nextb, 1, BLOCK_FILE). */
  method Peek(f: Formatter, ghost open: int) returns (r: GetResult)
    requires f.Inv(open, NONE)
    modifies f.c
    ensures f.c.Valid()
    ensures r.PastEnd? <==> f.nextb == f.g.nblocks
    ensures r.CacheFull? ==> Short(old(f.c.slots), 1)
    ensures r.Got? ==> Peeked(f, open, r.slot) && f.c.Contents() == old(f.c.Contents())[f.nextb := ZERO]
    ensures r.Got? ==> SamePins(old(f.c.slots), Unpin(f.c.slots, r.slot))
  {
    FreshPins(f.c.slots, f.g, f.nextb, f.fs, NONE, FileBlock);
    hide FsCore, SamePins, Unpin, PinsOk, Short;
    assert NONE.Keys == {};
    FsCoreBounds(f.c.Contents(), f.g, f.nextb, f.nextinode, f.fs, open, {});
    r := f.c.GetBlk(f.nextb, true, FileBlock);
    if r.Got? {
      assert old(f.c.slots)[r.slot].busy == 0;
      PeekPins(old(f.c.slots), f.c.slots, f.g, f.nextb, f.fs, r.slot);
      FsScratch(old(f.c.Contents()), f.g, f.nextb, f.nextinode, f.fs, open, {}, f.nextb, ZERO, 0);
    }
  }

  /** putblk on a block that was not used. */
  method PutBack(f: Formatter, ghost open: int, s: nat)
    requires Peeked(f, open, s)
    modifies f.c
    ensures f.Inv(open, NONE) && f.c.Contents() == old(f.c.Contents()) && f.c.slots == Unpin(old(f.c.slots), s)
  {
    hide FsCore, Unpin, PinsOk;
    assert NONE.Keys == {};
    f.c.PutBlk(s);
  }

  lemma FilledPins(a: Slots, g: Geometry, nextb: nat, fs: Fs, s: nat, data: Block)
    requires s < |a| && a[s].busy == 1 && a[s].bno == nextb && a[s].ty == FileBlock && PinsOk(Unpin(a, s), g, nextb, fs, NONE)
    ensures PinsOk(a[s := a[s].(data := data)], g, nextb + 1, fs, map[nextb := FileBlock])
  {
    var b := a[s := a[s].(data := data)];
    forall i | 0 <= i < |b| && b[i].busy > 0
      ensures b[i].bno < nextb + 1
      ensures b[i].ty == if b[i].bno == nextb then FileBlock else TypeOf(g, fs, b[i].bno)
    {
      if i != s {
        assert Unpin(a, s)[i] == a[i];
      }
    }
  }

  /** The bytes that were read are put into the block, and the block is taken: nextb++. */
  method Fill(f: Formatter, ghost open: int, s: nat, chunk: seq<byte>)
    requires Peeked(f, open, s) && |chunk| <= 1024 && f.c.Contents()[f.nextb] == ZERO
    modifies f`nextb, f.c
    ensures f.nextb == old(f.nextb) + 1 && f.Inv(open, map[old(f.nextb) := FileBlock])
    ensures f.c.Contents() == old(f.c.Contents())[old(f.nextb) := Padded(chunk)]
    ensures f.Pins(s, old(f.nextb)) && SamePins(old(f.c.slots), f.c.slots)
  {
    hide FsCore, SamePins, Unpin, PinsOk, Padded;
    ghost var img := f.c.Contents();
    ghost var b := f.nextb;
    FsCoreBounds(img, f.g, b, f.nextinode, f.fs, open, {});
    FsScratch(img, f.g, b, f.nextinode, f.fs, open, {}, b, Padded(chunk), 0);
    HandOut(img[b := Padded(chunk)], f.g, b, f.nextinode, f.fs, open, {});
    FilledPins(f.c.slots, f.g, b, f.fs, s, Padded(chunk));
    WritePins(f.c.slots, f.c.nblocks, s, Padded(chunk));
    f.c.Shows(s);
    f.c.Store(s, Padded(chunk));
    f.nextb := f.nextb + 1;
    assert map[b := FileBlock].Keys == {} + {b};
  }

  lemma ScratchBody(img: Image, g: Geometry, nextb: nat, nextinode: nat, fs: Fs, i: nat, n: nat, content: seq<byte>, data: Block)
    requires FsCore(img, g, nextb, nextinode, fs, i, {}) && i in Live(fs) && nextb < g.nblocks
    requires Body(img, g, fs.role, i, n, content) && nextb < |img|
    ensures Body(img[nextb := data], g, fs.role, i, n, content)
    ensures IGet(img[nextb := data], g, i, FTYPE) == IGet(img, g, i, FTYPE)
    ensures NlinksKept(img, img[nextb := data], g, -1)
  {
    hide FsCore, Body, IGet, SameData, Confined, SameDataBlocks, NlinksKept;
    FsCoreBounds(img, g, nextb, nextinode, fs, i, {});
    FsScratch(img, g, nextb, nextinode, fs, i, {}, nextb, data, 0);
    DataBlockNlinks(img, g, nextb, data);
    BodyHas(img, g, fs.role, i, n, content);
    SameDataIsBlocks(img, img[nextb := data], g, fs.role, i);
    BodyKept(img, img[nextb := data], g, fs.role, fs.role, i, n, content);
    SameAttributes(img, img[nextb := data], g, fs.role, i);
  }

  lemma SameDataIsBlocks(img: Image, img': Image, g: Geometry, role: Roles, i: nat)
    requires SameData(img, img', g, role, i)
    ensures SameDataBlocks(img, img', g, role, i)
  {
  }

  lemma PaddedBytes(chunk: seq<byte>, b: Block)
    requires |chunk| <= 1024 && b == Padded(chunk)
    ensures forall o :: 0 <= o < 1024 ==> b[o] == if o < |chunk| then chunk[o] else 0
  {
  }

  lemma OneBlockMore(img: Image, img': Image, g: Geometry, role: Roles, role': Roles, i: nat, n: nat, b: nat,
                     content: seq<byte>, chunk: seq<byte>)
    requires ValidGeometry(g) && |img| == g.nblocks && Grown(img, img', g, role, role', i, n, b)
    requires Body(img, g, role, i, n, content) && |content| == n * 1024 && |chunk| <= 1024
    requires b < |img| && img[b] == Padded(chunk)
    ensures Body(img', g, role', i, n + 1, content + chunk)
    ensures IGet(img', g, i, FTYPE) == IGet(img, g, i, FTYPE) && NlinksKept(img, img', g, -1)
  {
    PaddedBytes(chunk, img[b]);
    hide Body, IGet, Padded, NlinksKept;
    BodyGrown(img, img', g, role, role', i, n, b, content, chunk);
    GrownNlinks(img, img', g, role, role', i, n, b);
    SameAttributesGrown(img, img', g, role, role', i, n, b);
  }

  lemma SameAttributesGrown(img: Image, img': Image, g: Geometry, role: Roles, role': Roles, i: nat, n: nat, b: nat)
    requires Grown(img, img', g, role, role', i, n, b)
    ensures IGet(img', g, i, FTYPE) == IGet(img, g, i, FTYPE)
  {
    hide Confined, HasBlocks, Ref;
    SameAttributes(img, img', g, role, i);
  }

  /** File ino is being written: its first nblk blocks hold the beginning of the content. */
  ghost predicate Writing(f: Formatter, ino: nat, inob: nat, nblk: nat, content: seq<byte>)
    reads f, f.c
  {
    && f.Inv(ino, NONE) && ino in f.fs.files && ino !in f.fs.dirs && ino < f.nextinode && f.Pins(inob, InodeBlock(f.g, ino))
    && Body(f.c.Contents(), f.g, f.fs.role, ino, nblk, content)
    && IGet(f.c.Contents(), f.g, ino, FTYPE) == FTYPE_REG
  }

  /** The block in slot s takes the next n bytes of the host file and becomes block nblk. */
  method StoreChunk(f: Formatter, ino: nat, inob: nat, s: nat, nblk: nat, content: seq<byte>, n: nat) returns (r: Status)
    requires Peeked(f, ino, s) && 0 < n <= 1024 && nblk * 1024 + n <= |content| && f.c.Contents()[f.nextb] == ZERO
    requires ino in f.fs.files && ino !in f.fs.dirs && ino < f.nextinode && f.Pins(inob, InodeBlock(f.g, ino))
    requires Body(f.c.Contents(), f.g, f.fs.role, ino, nblk, content[..nblk * 1024]) && IGet(f.c.Contents(), f.g, ino, FTYPE) == FTYPE_REG
    modifies f`nextb, f`fs, f.c
    ensures f.c.Valid() && f.fs == old(f.fs).(role := f.fs.role)
    ensures f.nextb <= old(f.nextb) + 1 + PointerCost(nblk)
    ensures Justified(r, f.g, old(f.c.slots), old(f.nextb), Demand(2, 1 + PointerCost(nblk), 0, 0, true))
    ensures r.Done? ==> Writing(f, ino, inob, nblk + 1, content[..nblk * 1024 + n])
    ensures r.Done? ==> SamePins(Unpin(old(f.c.slots), s), f.c.slots) && NlinksKept(old(f.c.Contents()), f.c.Contents(), f.g, -1)
  {
    hide FsCore, SamePins, Unpin, PinsOk, Body, IGet, NlinksKept, Padded, Grown, HasBlocks, Short;
    assert NONE.Keys == {};
    ghost var img, slots, b := f.c.Contents(), f.c.slots, f.nextb;
    ghost var done := content[..nblk * 1024];
    FsCoreBounds(img, f.g, f.nextb, f.nextinode, f.fs, ino, {});
    BodyHas(img, f.g, f.fs.role, ino, nblk, done);
    FewBlocks(img, f.g, f.nextb, f.nextinode, f.fs, ino, {}, ino, nblk);
    var chunk := content[nblk * 1024..nblk * 1024 + n];
    ScratchBody(img, f.g, f.nextb, f.nextinode, f.fs, ino, nblk, done, Padded(chunk));
    Fill(f, ino, s, chunk);
    ghost var img1, role1, slots1 := f.c.Contents(), f.fs.role, f.c.slots;
    StillBusy(slots, slots1, inob);
    r := f.StoreBlk(ino, inob, s, nblk);
    if r.Aborted? {
      JustifiedSame(r, f.g, slots, slots1, b + 1, Demand(2, PointerCost(nblk), 0, 0, true));
      JustifiedMore(r, f.g, slots, b + 1, Demand(2, PointerCost(nblk), 0, 0, true), b, Demand(2, 1 + PointerCost(nblk), 0, 0, true));
      return r;
    }
    OneBlockMore(img1, f.c.Contents(), f.g, role1, f.fs.role, ino, nblk, b, done, chunk);
    assert done + chunk == content[..nblk * 1024 + n];
    NlinksTrans(img, img1, f.c.Contents(), f.g, -1);
    ghost var slots2 := f.c.slots;
    SamePinsTrans(slots, slots1, slots2);
    StillBusy(slots, slots2, s);
    UnpinBoth(slots, slots2, s);
    f.Release(s, ino, NONE);
    OtherPin(slots, f.c.slots, s, inob);
    return Done;
  }

  lemma UnpinBoth(a: Slots, b: Slots, s: nat)
    requires SamePins(a, b)
    ensures SamePins(Unpin(a, s), Unpin(b, s))
  {
  }

  lemma OtherPin(a: Slots, b: Slots, s: nat, t: nat)
    requires SamePins(Unpin(a, s), b) && s < |a| && t < |a| && a[s].busy > 0 && a[t].busy > 0 && a[s].bno != a[t].bno
    ensures |b| == |a| && b[t].bno == a[t].bno && b[t].busy > 0 && b[t].used != 0
  {
    assert Unpin(a, s)[t] == a[t];
  }

  lemma PinsNestFirst2(a: Slots, b: Slots, c: Slots, s: nat)
    requires SamePins(a, Unpin(b, s)) && SamePins(Unpin(b, s), c)
    ensures SamePins(a, c)
  {
    SamePinsTrans(a, Unpin(b, s), c);
  }

  /** What the next round of the loop of writefile takes. */
  function BlockDemand(nblk: nat, length: nat): Demand {
    if nblk * 1024 < length then Demand(3, 1 + PointerCost(nblk), 0, 0, true) else Demand(3, 0, 1, 0, true)
  }

  /** One round of the loop of writefile: up to 1024 bytes of the host file, n of them. */
  method WriteBlock(f: Formatter, ino: nat, inob: nat, nblk: nat, content: seq<byte>) returns (r: Status, n: nat)
    requires nblk * 1024 <= |content| && Writing(f, ino, inob, nblk, content[..nblk * 1024])
    modifies f`nextb, f`fs, f.c
    ensures f.c.Valid() && f.fs == old(f.fs).(role := f.fs.role)
    ensures f.nextb <= old(f.nextb) + if n == 0 then 0 else 1 + PointerCost(nblk)
    ensures Justified(r, f.g, old(f.c.slots), old(f.nextb), BlockDemand(nblk, |content|))
    ensures r.Done? ==> n <= 1024 && nblk * 1024 + n <= |content| && (n < 1024 ==> nblk * 1024 + n == |content|)
    ensures r.Done? ==> Writing(f, ino, inob, if n == 0 then nblk else nblk + 1, content[..nblk * 1024 + n])
    ensures r.Done? ==> SamePins(old(f.c.slots), f.c.slots) && NlinksKept(old(f.c.Contents()), f.c.Contents(), f.g, -1)
  {
    hide FsCore, SamePins, Unpin, PinsOk, Body, IGet, NlinksKept, Padded, Grown, Short;
    assert NONE.Keys == {};
    ghost var img, slots, b := f.c.Contents(), f.c.slots, f.nextb;
    ghost var done := content[..nblk * 1024];
    FsCoreBounds(img, f.g, f.nextb, f.nextinode, f.fs, ino, {});
    BodyHas(img, f.g, f.fs.role, ino, nblk, done);
    n := 0;
    var res := Peek(f, ino);
    if !res.Got? {
      if res.CacheFull? {
        ShortMore(slots, 1, 3);
      }
      return Aborted(if res.PastEnd? then DiskFull else CacheExhausted), 0;
    }
    ghost var img1, slots0 := f.c.Contents(), f.c.slots;
    StillPinned(slots, slots0, res.slot, inob);
    ScratchBody(img, f.g, f.nextb, f.nextinode, f.fs, ino, nblk, done, ZERO);
    n := if |content| - nblk * 1024 < 1024 then |content| - nblk * 1024 else 1024;
    if n == 0 {
      PutBack(f, ino, res.slot);
      StillBusy(slots, f.c.slots, inob);
      return Done, 0;
    }
    r := StoreChunk(f, ino, inob, res.slot, nblk, content, n);
    if r.Aborted? {
      JustifiedBefore(r, f.g, slots, slots0, res.slot, b, Demand(2, 1 + PointerCost(nblk), 0, 0, true));
      return;
    }
    PinsNestFirst2(slots, slots0, f.c.slots, res.slot);
    NlinksTrans(img, img1, f.c.Contents(), f.g, -1);
  }

  lemma StartWriting(img: Image, g: Geometry, nextb: nat, nextinode: nat, fs: Fs, i: nat)
    requires FsCore(img, g, nextb, nextinode, fs, -1, {}) && i in fs.files && fs.files[i] == []
    ensures FsCore(img, g, nextb, nextinode, fs, i, {}) && i < nextinode && i !in fs.dirs
    ensures Body(img, g, fs.role, i, 0, []) && IGet(img, g, i, FTYPE) == FTYPE_REG
  {
    FsFile(img, g, nextb, nextinode, fs, i, {});
    hide FilesOk, DirsOk, LinksOk, Owned, BlocksOk, LowOk, Body, IGet;
  }

  lemma SizeFits(img: Image, g: Geometry, role: Roles, i: nat, n: nat, content: seq<byte>)
    requires Body(img, g, role, i, n, content)
    ensures |content| <= MAXFILEBLKS * 1024
  {
  }

  lemma RoundCost(nblk: nat, length: nat)
    requires nblk * 1024 <= length
    ensures Blocks(nblk) <= Blocks(Nblocks(length))
    ensures nblk * 1024 < length ==> Blocks(nblk) + 1 + PointerCost(nblk) == Blocks(nblk + 1) <= Blocks(Nblocks(length))
    ensures nblk * 1024 == length ==> length % 1024 == 0 && Nblocks(length) == nblk
  {
    BlocksGrow(nblk, Nblocks(length));
    if nblk * 1024 < length {
      BlocksGrow(nblk + 1, Nblocks(length));
    }
  }

  /** The loop of writefile, and the size of the file after it. */
  method WriteData(f: Formatter, ino: nat, inob: nat, content: seq<byte>) returns (r: Status)
    requires f.Inv(-1, NONE) && ino in f.fs.files && f.fs.files[ino] == [] && f.Pins(inob, InodeBlock(f.g, ino))
    modifies f`nextb, f`fs, f.c
    ensures f.c.Valid() && (r.Done? ==> f.nextb <= old(f.nextb) + Blocks(Nblocks(|content|)))
    ensures Justified(r, f.g, old(f.c.slots), old(f.nextb), DataDemand(|content|))
    ensures r.Done? ==> f.Inv(-1, NONE) && SamePins(old(f.c.slots), f.c.slots)
    ensures r.Done? ==> f.fs == old(f.fs).(role := f.fs.role, files := old(f.fs).files[ino := content])
    ensures r.Done? ==> NlinksKept(old(f.c.Contents()), f.c.Contents(), f.g, -1)
  {
    hide FsCore, SamePins, Unpin, PinsOk, Body, IGet, NlinksKept, Short, PointerCost;
    assert NONE.Keys == {};
    StartWriting(f.c.Contents(), f.g, f.nextb, f.nextinode, f.fs, ino);
    FsCoreBounds(f.c.Contents(), f.g, f.nextb, f.nextinode, f.fs, -1, {});
    NothingMoved(f.c.Contents(), f.g);
    SamePinsSelf(f.c.slots, f.g.nblocks);
    var n, nblk := 1024, 0;
    while n == 1024
      invariant nblk * 1024 <= |content| && n <= 1024 && f.c.Valid()
      invariant f.fs == old(f.fs).(role := f.fs.role)
      invariant if n == 1024 then Writing(f, ino, inob, nblk, content[..nblk * 1024])
                else Writing(f, ino, inob, if n == 0 then nblk else nblk + 1, content) && nblk * 1024 + n == |content|
      invariant f.nextb <= old(f.nextb) + Blocks(if n == 0 || n == 1024 then nblk else nblk + 1)
      invariant SamePins(old(f.c.slots), f.c.slots) && NlinksKept(old(f.c.Contents()), f.c.Contents(), f.g, -1)
      decreases |content| - nblk * 1024, n
    {
      ghost var img, slots, nextb := f.c.Contents(), f.c.slots, f.nextb;
      RoundCost(nblk, |content|);
      r, n := WriteBlock(f, ino, inob, nblk, content);
      if r.Aborted? {
        JustifiedSame(r, f.g, old(f.c.slots), slots, nextb, BlockDemand(nblk, |content|));
        JustifiedMore(r, f.g, old(f.c.slots), nextb, BlockDemand(nblk, |content|), old(f.nextb), DataDemand(|content|));
        return;
      }
      NlinksTrans(old(f.c.Contents()), img, f.c.Contents(), f.g, -1);
      SamePinsTrans(old(f.c.slots), slots, f.c.slots);
      assert n < 1024 ==> content[..nblk * 1024 + n] == content;
      if n == 1024 {
        nblk := nblk + 1;
      }
    }
    ghost var img, slots := f.c.Contents(), f.c.slots;
    SetFileSize(f, ino, inob, nblk, n, content);
    SamePinsTrans(old(f.c.slots), slots, f.c.slots);
    NlinksTrans(old(f.c.Contents()), img, f.c.Contents(), f.g, -1);
    return Done;
  }

  lemma SamePinsSelf(slots: Slots, nblocks: nat)
    requires ValidSlots(slots, nblocks)
    ensures SamePins(slots, slots)
  {
  }

  method SetFileSize(f: Formatter, ino: nat, inob: nat, nblk: nat, n: nat, ghost content: seq<byte>)
    requires n < 1024 && nblk * 1024 + n == |content| && Writing(f, ino, inob, if n == 0 then nblk else nblk + 1, content)
    modifies f`fs, f.c
    ensures f.Inv(-1, NONE) && SamePins(old(f.c.slots), f.c.slots)
    ensures f.fs == old(f.fs).(files := old(f.fs).files[ino := content])
    ensures NlinksKept(old(f.c.Contents()), f.c.Contents(), f.g, -1)
  {
    hide FsCore, SamePins, Unpin, PinsOk, Body, IGet, NlinksKept;
    assert NONE.Keys == {};
    assert Nblocks(|content|) == if n == 0 then nblk else nblk + 1;
    SizeFits(f.c.Contents(), f.g, f.fs.role, ino, Nblocks(|content|), content);
    FsSetSize(f.c.Contents(), f.g, f.nextb, f.nextinode, f.fs, ino, {}, content);
    f.c.Shows(inob);
    ghost var data := SetWord(f.c.slots[inob].data, InodeWord(ino, SIZE), |content|);
    WritePins(f.c.slots, f.c.nblocks, inob, data);
    SamePinsAlso(f.c.slots, f.c.slots[inob := f.c.slots[inob].(data := data)], f.g, f.nextb, f.fs, NONE);
    f.c.StoreWord(inob, InodeWord(ino, SIZE), nblk * 1024 + n);
    f.fs := f.fs.(files := f.fs.files[ino := content]);
    SameTypes(f.c.slots, f.g, f.nextb, old(f.fs), f.fs, NONE);
  }

  // ---------------------------------------------------------------- a name for a file or link

  method GetHardlink(table: seq<Hardlink>, host: nat) returns (ino: nat)
    ensures ino == Lookup(table, host)
  {
    var i := 0;
    while i < |table|
      invariant i <= |table| && Lookup(table, host) == Lookup(table[i..], host)
    {
      assert table[i..][1..] == table[i + 1..];
      if table[i].host == host {
        return table[i].ino;
      }
      i := i + 1;
    }
    return 0;
  }

  /** Stores the link count of an inode whose block is pinned. */
  method SetNlink(f: Formatter, x: nat, slot: nat, v: word)
    requires f.Inv(-1, NONE) && (x in f.fs.files || x in f.fs.dirs || x in f.fs.links) && f.Pins(slot, InodeBlock(f.g, x))
    modifies f.c
    ensures f.Inv(-1, NONE) && SamePins(old(f.c.slots), f.c.slots)
    ensures NlinksKept(old(f.c.Contents()), f.c.Contents(), f.g, x) && IGet(f.c.Contents(), f.g, x, NLINK) == v
  {
    hide FsCore, SamePins, Unpin, PinsOk, NlinksKept, IGet;
    assert NONE.Keys == {};
    ghost var data := SetWord(f.c.slots[slot].data, InodeWord(x, NLINK), v);
    if x in f.fs.links {
      FsLinkCount(f.c.Contents(), f.g, f.nextb, f.nextinode, f.fs, x, {}, v);
    } else {
      FsSetAttribute(f.c.Contents(), f.g, f.nextb, f.nextinode, f.fs, x, {}, NLINK, v);
    }
    WritePins(f.c.slots, f.c.nblocks, slot, data);
    SamePinsAlso(f.c.slots, f.c.slots[slot := f.c.slots[slot].(data := data)], f.g, f.nextb, f.fs, NONE);
    f.c.StoreWord(slot, InodeWord(x, NLINK), v);
  }

  lemma NlinkWord(img: Image, g: Geometry, i: nat)
    requires InodeBlock(g, i) < |img|
    ensures Word(img[InodeBlock(g, i)], InodeWord(i, NLINK)) == IGet(img, g, i, NLINK)
  {
  }

  /** oi_nlink++, on 32 bits. */
  method BumpNlink(f: Formatter, x: nat, slot: nat)
    requires f.Inv(-1, NONE) && (x in f.fs.files || x in f.fs.dirs || x in f.fs.links) && f.Pins(slot, InodeBlock(f.g, x))
    modifies f.c
    ensures f.Inv(-1, NONE) && SamePins(old(f.c.slots), f.c.slots)
    ensures NlinksKept(old(f.c.Contents()), f.c.Contents(), f.g, x)
    ensures IGet(f.c.Contents(), f.g, x, NLINK) == (IGet(old(f.c.Contents()), f.g, x, NLINK) + 1) % MOD32
  {
    hide FsCore, SamePins, PinsOk, NlinksKept, Word, IGet;
    f.c.Shows(slot);
    NlinkWord(f.c.Contents(), f.g, x);
    SetNlink(f, x, slot, (Word(f.c.slots[slot].data, InodeWord(x, NLINK)) + 1) % MOD32);
  }

  /** The link count of inode ino becomes right with the entry that was just made for it. */
  ghost predicate Counted(img: Image, img': Image, g: Geometry, fs: Fs, ino: nat) {
    NlinksKept(img, img', g, ino) && ino < g.ninodes && IGet(img', g, ino, NLINK) == (CountNamed(fs.log, ino) + 1) % MOD32
  }

  lemma CountedOk(img: Image, img': Image, g: Geometry, nextb: nat, nextinode: nat, fs: Fs, fs': Fs, d: nat, e: Entry)
    requires FsCore(img, g, nextb, nextinode, fs, -1, {}) && NlinksOk(img, g, fs)
    requires Counted(img, img', g, fs, e.ino) && e.ino !in fs.dirs
    requires fs'.log == fs.log + [Named(d, e)] && fs'.dirs == fs.dirs
    requires fs'.files.Keys <= fs.files.Keys + {e.ino} && fs'.links.Keys <= fs.links.Keys + {e.ino}
    ensures NlinksOk(img', g, fs')
  {
    hide FsCore, IGet, NlinksKept, NlinksOk, CountNamed, CountSubdirs;
    InodeBounds(img, g, nextb, nextinode, fs, -1, {});
    NlinksNamed(img, img', g, fs, fs', d, e);
  }

  lemma InodeBounds(img: Image, g: Geometry, nextb: nat, nextinode: nat, fs: Fs, open: int, pending: set<nat>)
    requires FsCore(img, g, nextb, nextinode, fs, open, pending)
    ensures nextinode <= g.ninodes
    ensures forall i :: i in fs.files || i in fs.links || i in fs.dirs ==> i < nextinode
    ensures forall k :: 0 <= k < |fs.log| ==> fs.log[k].dir < nextinode && fs.log[k].entry.ino < nextinode
    ensures fs.files.Keys !! fs.dirs && fs.links.Keys !! fs.dirs && fs.files.Keys !! fs.links.Keys
  {
    hide Owned, FilesOk, DirsOk, LinksOk, LowOk, BlankInode, BlocksOk;
  }

  /** A name for a file or link that is new to the image. */
  method NameNew(f: Formatter, d: nat, dirb: nat, q: nat, name: seq<byte>, host: nat) returns (r: Status, ino: nat, inob: nat)
    requires f.Inv(-1, NONE) && EntryReady(f, d, dirb, q, name) && ValidName(name) && 0 < f.nextinode
    modifies f`nextinode, f`fs, f`hardlinks, f.c
    ensures f.c.Valid() && ino == old(f.nextinode)
    ensures Justified(r, f.g, old(f.c.slots), f.nextb, Demand(1, 0, 0, old(f.nextinode) + 1, true))
    ensures r.Done? ==> f.Inv(-1, NONE) && f.nextinode == ino + 1 && f.Pins(inob, InodeBlock(f.g, ino))
    ensures r.Done? ==> f.fs == old(f.fs).(files := old(f.fs).files[ino := []], log := old(f.fs).log + [Named(d, Entry(ino, name))])
    ensures r.Done? ==> NoBlocks(f.fs.role, ino) && f.hardlinks == Remember(old(f.hardlinks), host, ino)
    ensures r.Done? ==> Counted(old(f.c.Contents()), f.c.Contents(), f.g, old(f.fs), ino)
    ensures r.Done? ==> SamePins(old(f.c.slots), Unpin(f.c.slots, inob))
  {
    hide FsCore, SamePins, Unpin, PinsOk, NlinksKept, HasRoom, NextEntryBlock, NextEntryIndex, NameAt, IGet, NoBlocks, Short;
    assert NONE.Keys == {};
    ghost var img, slots := f.c.Contents(), f.c.slots;
    InodeBounds(img, f.g, f.nextb, f.nextinode, f.fs, -1, {});
    CountFresh(f.fs.log, {}, f.nextinode);
    r, ino, inob := AllocInode(f, d, dirb, q, name);
    if r.Aborted? {
      return;
    }
    ghost var img1, slots1 := f.c.Contents(), f.c.slots;
    SetNlink(f, ino, inob, 1);
    NlinksTrans(img, img1, f.c.Contents(), f.g, ino);
    InodeBounds(f.c.Contents(), f.g, f.nextb, f.nextinode, f.fs, -1, {});
    PinsNest(slots, slots1, f.c.slots, inob);
    StillBusy(slots1, f.c.slots, inob);
    if host != 0 {
      f.hardlinks := [Hardlink(host, ino)] + f.hardlinks;
    }
  }

  lemma CountOf(img: Image, g: Geometry, fs: Fs, i: nat)
    requires NlinksOk(img, g, fs) && i != 0 && (i in fs.files || i in fs.links)
    ensures IGet(img, g, i, NLINK) == CountNamed(fs.log, i) % MOD32
  {
    hide IGet;
  }

  /** A further name for a file or link of the image. */
  method NameKnown(f: Formatter, d: nat, dirb: nat, q: nat, name: seq<byte>, ino: nat) returns (r: Status, inob: nat)
    requires f.Inv(-1, NONE) && EntryReady(f, d, dirb, q, name) && ValidName(name)
    requires ino != 0 && (ino in f.fs.files || ino in f.fs.links) && NlinksOk(f.c.Contents(), f.g, f.fs)
    modifies f`fs, f.c
    ensures f.c.Valid() && Justified(r, f.g, old(f.c.slots), f.nextb, Demand(1, 0, 0, 0, true))
    ensures r.Done? ==> f.Inv(-1, NONE) && f.Pins(inob, InodeBlock(f.g, ino))
    ensures r.Done? ==> f.fs == old(f.fs).(log := old(f.fs).log + [Named(d, Entry(ino, name))])
    ensures r.Done? ==> Counted(old(f.c.Contents()), f.c.Contents(), f.g, old(f.fs), ino)
    ensures r.Done? ==> SamePins(old(f.c.slots), Unpin(f.c.slots, inob))
  {
    hide FsCore, SamePins, Unpin, PinsOk, NlinksKept, HasRoom, NextEntryBlock, NextEntryIndex, NameAt, NlinksOk, Word, IGet, EntryReady, Counted, Short;
    assert NONE.Keys == {};
    ghost var img, slots := f.c.Contents(), f.c.slots;
    InodeBounds(img, f.g, f.nextb, f.nextinode, f.fs, -1, {});
    FsCoreBounds(img, f.g, f.nextb, f.nextinode, f.fs, -1, {});
    InodeNumber(f.g, ino);
    EnterInode(f, d, dirb, q, name, ino);
    ghost var img1, slots1 := f.c.Contents(), f.c.slots;
    var res := GetInode(f, ino);
    if !res.Got? {
      ShortSame(slots, slots1, 1);
      return Aborted(CacheExhausted), 0;
    }
    inob := res.slot;
    ghost var slots2 := f.c.slots;
    PinsNestFirst(slots, slots1, slots2, inob);
    BumpNlink(f, ino, inob);
    PinsNest(slots, slots2, f.c.slots, inob);
    StillBusy(slots2, f.c.slots, inob);
    OneMoreName(img, img1, f.c.Contents(), f.g, old(f.fs), ino);
    return Done, inob;
  }

  lemma OneMoreName(a: Image, b: Image, c: Image, g: Geometry, fs: Fs, i: nat)
    requires NlinksOk(a, g, fs) && i != 0 && (i in fs.files || i in fs.links) && i < g.ninodes
    requires NlinksKept(a, b, g, -1) && NlinksKept(b, c, g, i) && IGet(c, g, i, NLINK) == (IGet(b, g, i, NLINK) + 1) % MOD32
    ensures Counted(a, c, g, fs, i)
  {
    hide IGet, CountNamed, CountSubdirs;
    CountOf(a, g, fs, i);
  }

  lemma PlaceJustified(r: Status, g: Geometry, a: Slots, b: Slots, s: nat, nextb: nat, nextb': nat, next: nat, need: Demand)
    requires Justified(r, g, b, nextb', Demand(1, 0, 0, next, true)) && SamePins(a, Unpin(b, s))
    requires nextb' <= nextb + need.blocks && need.slots == 3 && need.spare == 0 && next <= need.next
    ensures Justified(r, g, a, nextb, need)
  {
    JustifiedBefore(r, g, a, b, s, nextb', Demand(1, 0, 0, next, true));
    JustifiedMore(r, g, a, nextb', Demand(2, 0, 0, next, true), nextb, need);
  }

  /** The common beginning of writefile and addsymlink: a directory entry, and for it a new
      inode, or the one that stands for the same host inode. */
  method PlaceName(f: Formatter, d: nat, dslot: nat, name: seq<byte>, host: nat)
    returns (r: Status, isNew: bool, ino: nat, inob: nat, dirb: nat)
    requires Sound(f) && d in f.fs.dirs && f.Pins(dslot, InodeBlock(f.g, d)) && 0 !in name
    modifies f`nextb, f`nextinode, f`fs, f`hardlinks, f.c
    ensures f.c.Valid() && (r == Aborted(NameTooLong) <==> |name| > 123)
    ensures f.nextb <= old(f.nextb) + PlaceDemand(old(Run(f)), d, name, host).blocks
    ensures Justified(r, f.g, old(f.c.slots), old(f.nextb), PlaceDemand(old(Run(f)), d, name, host))
    ensures r.Done? ==> f.Inv(-1, NONE) && f.Pins(inob, InodeBlock(f.g, ino)) && ino in f.fs.files.Keys + f.fs.links.Keys
    ensures r.Done? ==> (isNew <==> Known(old(Run(f)), host) == 0) && NlinksOk(f.c.Contents(), f.g, f.fs)
    ensures r.Done? && isNew ==> ino == old(f.nextinode) && f.nextinode == ino + 1 && NoBlocks(f.fs.role, ino)
    ensures r.Done? && isNew ==> f.hardlinks == Remember(old(f.hardlinks), host, ino) && ino !in old(f.fs).files
    ensures r.Done? && isNew ==> f.fs == old(f.fs).(role := f.fs.role, files := old(f.fs).files[ino := []], log := f.fs.log)
    ensures r.Done? && !isNew ==> ino == Known(old(Run(f)), host) && f.nextinode == old(f.nextinode)
    ensures r.Done? && !isNew ==> f.hardlinks == old(f.hardlinks) && f.fs == old(f.fs).(role := f.fs.role, log := f.fs.log)
    ensures r.Done? ==> f.fs.log == old(f.fs).log + [Named(d, Entry(ino, name))]
    ensures r.Done? ==> |f.c.slots| == NSLOTS && dirb < NSLOTS && f.c.slots[dirb].busy > 0 && f.c.slots[dirb].bno != f.c.slots[inob].bno
    ensures r.Done? ==> SamePins(old(f.c.slots), Unpin(Unpin(f.c.slots, inob), dirb))
  {
    hide FsCore, SamePins, Unpin, PinsOk, NlinksKept, NlinksOk, NoBlocks, HasRoom, NextEntryBlock, IGet, NameAt, Short, EntryCost, Lookup, Entries, Counted, Remember;
    assert NONE.Keys == {};
    isNew, ino, inob, dirb := true, 0, 0, 0;
    ghost var img, slots, fs := f.c.Contents(), f.c.slots, f.fs;
    LookupOk(f.hardlinks, f.fs, host);
    var q;
    ghost var nextb, need := f.nextb, PlaceDemand(Run(f), d, name, host);
    r, dirb, q := AllocDirEntry(f, d, dslot, name);
    if r.Aborted? {
      JustifiedMore(r, f.g, slots, nextb, EntryDemand(|Entries(fs.log, d)|, name), nextb, need);
      return;
    }
    ghost var img1, slots1, fs1, nextb1, next1 := f.c.Contents(), f.c.slots, f.fs, f.nextb, f.nextinode;
    RoomHome(img1, f.g, f.nextb, f.nextinode, f.fs, d, {});
    SameNlinks(img, img1, f.g, f.nextb, f.nextinode, fs, f.fs);
    InodeBounds(img1, f.g, f.nextb, f.nextinode, f.fs, -1, {});
    if host != 0 {
      ino := GetHardlink(f.hardlinks, host);
      isNew := ino == 0;
    }
    if isNew {
      r, ino, inob := NameNew(f, d, dirb, q, name, host);
    } else {
      r, inob := NameKnown(f, d, dirb, q, name, ino);
    }
    if r.Aborted? {
      PlaceJustified(r, f.g, slots, slots1, dirb, nextb, nextb1, if isNew then next1 + 1 else 0, need);
      return;
    }
    CountedOk(img1, f.c.Contents(), f.g, nextb1, next1, fs1, f.fs, d, Entry(ino, name));
    FsCoreBounds(f.c.Contents(), f.g, f.nextb, f.nextinode, f.fs, -1, {});
    InodeInTable(f.g, ino);
    StillPinned(slots1, f.c.slots, inob, dirb);
    PinsNest2(slots, slots1, f.c.slots, dirb, inob);
  }

  lemma SameNlinks(img: Image, img': Image, g: Geometry, nextb: nat, nextinode: nat, fs: Fs, fs': Fs)
    requires NlinksOk(img, g, fs) && NlinksKept(img, img', g, -1) && FsCore(img', g, nextb, nextinode, fs', -1, {})
    requires fs'.log == fs.log && fs'.dirs == fs.dirs && fs'.files.Keys == fs.files.Keys && fs'.links.Keys == fs.links.Keys
    ensures NlinksOk(img', g, fs')
  {
    hide FsCore, IGet, CountNamed, CountSubdirs;
    InodeBounds(img', g, nextb, nextinode, fs', -1, {});
  }

  /** putblk of the directory block and of the inode block. */
  method ReleaseBoth(f: Formatter, dirb: nat, inob: nat)
    requires f.Inv(-1, NONE) && dirb < NSLOTS && inob < NSLOTS && f.c.slots[dirb].busy > 0 && f.c.slots[inob].busy > 0
    requires f.c.slots[dirb].bno != f.c.slots[inob].bno
    modifies f.c`slots
    ensures f.Inv(-1, NONE) && f.c.Contents() == old(f.c.Contents())
    ensures f.c.slots == Unpin(Unpin(old(f.c.slots), inob), dirb)
  {
    TwoPins(f.c.slots, dirb, inob);
    SwapUnpin(f.c.slots, dirb, inob);
    hide FsCore, PinsOk, Unpin;
    f.Release(dirb, -1, NONE);
    f.Release(inob, -1, NONE);
  }

  method WriteFile(f: Formatter, d: nat, dslot: nat, name: seq<byte>, host: nat, bytes: seq<byte>) returns (r: Status)
    requires Sound(f) && d in f.fs.dirs && f.Pins(dslot, InodeBlock(f.g, d)) && 0 !in name
    modifies f`nextb, f`nextinode, f`fs, f`hardlinks, f.c
    ensures f.c.Valid() && (r == Aborted(NameTooLong) <==> |name| > 123)
    ensures r.Done? ==> f.nextb <= old(f.nextb) + FileDemand(old(Run(f)), d, name, host, bytes).blocks
    ensures Justified(r, f.g, old(f.c.slots), old(f.nextb), FileDemand(old(Run(f)), d, name, host, bytes))
    ensures r.Done? ==> Sound(f) && Run(f) == AddFile(old(Run(f)), d, name, host, bytes)
    ensures r.Done? ==> SamePins(old(f.c.slots), f.c.slots)
  {
    hide FsCore, SamePins, Unpin, PinsOk, NlinksKept, NlinksOk, NoBlocks, Short, Blocks, EntryCost, Known, Entries, Nblocks;
    assert NONE.Keys == {};
    var isNew, ino, inob, dirb;
    ghost var slots, files := f.c.slots, f.fs.files;
    ghost var was, nextb := Run(f), f.nextb;
    r, isNew, ino, inob, dirb := PlaceName(f, d, dslot, name, host);
    if r.Aborted? {
      JustifiedMore(r, f.g, slots, nextb, PlaceDemand(was, d, name, host), nextb, FileDemand(was, d, name, host, bytes));
      return;
    }
    ghost var img1, slots1, fs1 := f.c.Contents(), f.c.slots, f.fs;
    if isNew {
      ghost var nextb1 := f.nextb;
      r := WriteData(f, ino, inob, bytes);
      if r.Aborted? {
        JustifiedBefore2(r, f.g, slots, slots1, inob, dirb, nextb1, DataDemand(|bytes|));
        JustifiedMore(r, f.g, slots, nextb1, DataDemand(|bytes|).(slots := 5), nextb, FileDemand(was, d, name, host, bytes));
        return;
      }
      StillBusy(slots1, f.c.slots, inob);
      StillBusy(slots1, f.c.slots, dirb);
      PinsNest3(slots, slots1, f.c.slots, inob, dirb);
      SameNlinks(img1, f.c.Contents(), f.g, f.nextb, f.nextinode, fs1, f.fs);
      assert f.fs.files == files[ino := bytes];
    }
    ReleaseBoth(f, dirb, inob);
    return Done;
  }

  lemma PinsNest3(a: Slots, b: Slots, c: Slots, s: nat, t: nat)
    requires SamePins(a, Unpin(Unpin(b, s), t)) && SamePins(b, c)
    ensures SamePins(a, Unpin(Unpin(c, s), t))
  {
  }

  // ---------------------------------------------------------------- symbolic links

  lemma LinkFields(img: Image, g: Geometry, x: nat, f: nat, v: word, h: nat)
    requires f < 16 && h < 16 && InodeBlock(g, x) < |img|
    ensures IGet(ISet(img, g, x, f, v), g, x, h) == if h == f then v else IGet(img, g, x, h)
  {
    SetWordAtFrame(img, InodeBlock(g, x), InodeWord(x, f), v, InodeBlock(g, x), InodeWord(x, h));
    hide Word, SetWord;
  }

  lemma LinkDone(img: Image, g: Geometry, x: nat, target: seq<byte>)
    requires HasTarget(img, g, x, target) && IGet(img, g, x, FTYPE) == FTYPE_SYMLINK && IGet(img, g, x, SIZE) == |target|
    ensures LinkOk(img, g, x, target)
  {
    hide IGet;
  }

  /** The inode while addsymlink writes it, in its three steps. */
  function LinkSteps(img: Image, g: Geometry, x: nat, target: seq<byte>, step: nat): Image
    requires |target| <= MAXSYMLINKLEN
  {
    var a := ISet(img, g, x, FTYPE, FTYPE_SYMLINK);
    var b := if InodeBlock(g, x) < |a| then a[InodeBlock(g, x) := WithTarget(a[InodeBlock(g, x)], x, target)] else a;
    if step == 0 then a else if step == 1 then b else ISet(b, g, x, SIZE, |target|)
  }

  /** The three steps of addsymlink turn an empty file into a link. */
  lemma LinkWritten(img: Image, g: Geometry, nextb: nat, nextinode: nat, fs: Fs, x: nat, target: seq<byte>)
    requires FsCore(img, g, nextb, nextinode, fs, -1, {}) && x in fs.files && NoBlocks(fs.role, x) && |target| <= MAXSYMLINKLEN
    ensures FsCore(LinkSteps(img, g, x, target, 2), g, nextb, nextinode, fs.(files := fs.files - {x}, links := fs.links[x := target]), -1, {})
    ensures NlinksKept(img, LinkSteps(img, g, x, target, 2), g, -1)
  {
    hide FsCore, OnlyInode, Owned, InodeByte, NlinksKept, ISet, IGet, WithTarget, HasTarget, NoBlocks, LinkOk;
    var fs' := fs.(files := fs.files - {x}, links := fs.links[x := target]);
    var a, b, c := LinkSteps(img, g, x, target, 0), LinkSteps(img, g, x, target, 1), LinkSteps(img, g, x, target, 2);
    FsFile(img, g, nextb, nextinode, fs, x, {});
    InodeInTable(g, x);
    FsToLink(img, g, nextb, nextinode, fs, x, {}, target);
    WordIsOnlyInode(img, g, x, FTYPE, FTYPE_SYMLINK);
    FsLinkWrite(img, a, g, nextb, nextinode, fs', x, {});
    LinkFields(img, g, x, FTYPE, FTYPE_SYMLINK, FTYPE);
    LinkFields(img, g, x, FTYPE, FTYPE_SYMLINK, NLINK);
    TargetIsOnlyInode(a, g, x, target);
    FsLinkWrite(a, b, g, nextb, nextinode, fs', x, {});
    assert IGet(b, g, x, FTYPE) == IGet(a, g, x, FTYPE) && IGet(b, g, x, NLINK) == IGet(a, g, x, NLINK);
    WordIsOnlyInode(b, g, x, SIZE, |target|);
    FsLinkWrite(b, c, g, nextb, nextinode, fs', x, {});
    LinkFields(b, g, x, SIZE, |target|, FTYPE);
    LinkFields(b, g, x, SIZE, |target|, NLINK);
    LinkFields(b, g, x, SIZE, |target|, SIZE);
    TargetKept(b, g, x, target, SIZE, |target|);
    LinkDone(c, g, x, target);
    FsCloseLink(c, g, nextb, nextinode, fs', x, {});
    AllNlinks(img, a, g, x);
    AllNlinks(a, b, g, x);
    AllNlinks(b, c, g, x);
    NlinksTrans(img, a, b, g, -1);
    NlinksTrans(img, b, c, g, -1);
  }

  lemma LinkStepsAre(img: Image, g: Geometry, x: nat, target: seq<byte>)
    requires InodeBlock(g, x) < |img| && |target| <= MAXSYMLINKLEN
    ensures forall step: nat :: |LinkSteps(img, g, x, target, step)| == |img|
    ensures LinkSteps(img, g, x, target, 0) == SetWordAt(img, InodeBlock(g, x), InodeWord(x, FTYPE), FTYPE_SYMLINK)
    ensures LinkSteps(img, g, x, target, 1) ==
            LinkSteps(img, g, x, target, 0)[InodeBlock(g, x) := WithTarget(LinkSteps(img, g, x, target, 0)[InodeBlock(g, x)], x, target)]
    ensures LinkSteps(img, g, x, target, 2) == SetWordAt(LinkSteps(img, g, x, target, 1), InodeBlock(g, x), InodeWord(x, SIZE), |target|)
  {
    hide WithTarget, SetWord;
  }

  /** Writing through a pinned slot: what is pinned stays so. */
  method Poke(f: Formatter, slot: nat, b: nat, data: Block)
    requires f.c.Valid() && f.Pins(slot, b)
    modifies f.c
    ensures f.c.Valid() && f.Pins(slot, b) && SamePins(old(f.c.slots), f.c.slots)
    ensures b < |old(f.c.Contents())| && f.c.Contents() == old(f.c.Contents())[b := data]
  {
    hide SamePins;
    f.c.Shows(slot);
    WritePins(f.c.slots, f.c.nblocks, slot, data);
    f.c.Store(slot, data);
  }

  lemma TableSame(table: seq<Hardlink>, fs: Fs)
    ensures TableOk(table, fs) <==> TableOk(table, fs.(role := map[]))
  {
  }

  lemma LinkEntered(was: Built, d: nat, name: seq<byte>, host: nat, target: seq<byte>, isNew: bool, ino: nat, fs: Fs)
    requires TableOk(was.table, was.fs) && 1 < was.next && (isNew <==> Known(was, host) == 0) && fs.role == map[]
    requires isNew ==> ino == was.next && ino !in was.fs.files
    requires isNew ==> fs == was.fs.(files := was.fs.files[ino := []] - {ino}, links := was.fs.links[ino := target], log := fs.log)
    requires !isNew ==> ino == Known(was, host) && fs == was.fs.(log := fs.log)
    requires fs.log == was.fs.log + [Named(d, Entry(ino, name))]
    ensures var now := Built(fs, if isNew then was.next + 1 else was.next, if isNew then Remember(was.table, host, ino) else was.table);
            now == AddLink(was, d, name, host, target) && TableOk(now.table, now.fs) && 1 < now.next
  {
    hide Known;
    if isNew {
      assert fs.files == was.fs.files;
    }
  }

  /** The end of addsymlink. */
  method MakeLink(f: Formatter, x: nat, inob: nat, target: seq<byte>)
    requires f.Inv(-1, NONE) && x in f.fs.files && NoBlocks(f.fs.role, x) && |target| <= MAXSYMLINKLEN
    requires f.Pins(inob, InodeBlock(f.g, x))
    modifies f`fs, f.c
    ensures f.Inv(-1, NONE) && SamePins(old(f.c.slots), f.c.slots)
    ensures f.fs == old(f.fs).(files := old(f.fs).files - {x}, links := old(f.fs).links[x := target])
    ensures NlinksKept(old(f.c.Contents()), f.c.Contents(), f.g, -1)
  {
    hide FsCore, SamePins, Unpin, PinsOk, NlinksKept, NoBlocks, WithTarget, SetWord, LinkSteps;
    assert NONE.Keys == {};
    ghost var img, slots := f.c.Contents(), f.c.slots;
    var b := InodeBlock(f.g, x);
    f.c.Shows(inob);
    LinkWritten(img, f.g, f.nextb, f.nextinode, f.fs, x, target);
    LinkStepsAre(img, f.g, x, target);
    Poke(f, inob, b, SetWord(f.c.slots[inob].data, InodeWord(x, FTYPE), FTYPE_SYMLINK));
    ghost var slots1 := f.c.slots;
    f.c.Shows(inob);
    Poke(f, inob, b, WithTarget(f.c.slots[inob].data, x, target));
    ghost var slots2 := f.c.slots;
    f.c.Shows(inob);
    Poke(f, inob, b, SetWord(f.c.slots[inob].data, InodeWord(x, SIZE), |target|));
    SamePinsTrans(slots, slots1, slots2);
    SamePinsTrans(slots, slots2, f.c.slots);
    SamePinsAlso(slots, f.c.slots, f.g, f.nextb, f.fs, NONE);
    f.fs := f.fs.(files := f.fs.files - {x}, links := f.fs.links[x := target]);
    SameTypes(f.c.slots, f.g, f.nextb, old(f.fs), f.fs, NONE);
  }

  method AddSymlink(f: Formatter, d: nat, dslot: nat, name: seq<byte>, host: nat, target: seq<byte>) returns (r: Status)
    requires Sound(f) && d in f.fs.dirs && f.Pins(dslot, InodeBlock(f.g, d)) && 0 !in name && |target| <= MAXSYMLINKLEN
    modifies f`nextb, f`nextinode, f`fs, f`hardlinks, f.c
    ensures f.c.Valid() && (r == Aborted(NameTooLong) <==> |name| > 123)
    ensures f.nextb <= old(f.nextb) + PlaceDemand(old(Run(f)), d, name, host).blocks
    ensures Justified(r, f.g, old(f.c.slots), old(f.nextb), PlaceDemand(old(Run(f)), d, name, host))
    ensures r.Done? ==> Sound(f) && Run(f) == AddLink(old(Run(f)), d, name, host, target)
    ensures r.Done? ==> SamePins(old(f.c.slots), f.c.slots)
  {
    hide FsCore, SamePins, Unpin, PinsOk, NlinksKept, NlinksOk, NoBlocks, Short, PlaceDemand, Known, Entries, AddLink, Remember, TableOk;
    assert NONE.Keys == {};
    var isNew, ino, inob, dirb;
    ghost var was, slots := Run(f), f.c.slots;
    TableSame(f.hardlinks, f.fs);
    r, isNew, ino, inob, dirb := PlaceName(f, d, dslot, name, host);
    if r.Aborted? {
      return;
    }
    ghost var img1, slots1, fs1 := f.c.Contents(), f.c.slots, f.fs;
    if isNew {
      MakeLink(f, ino, inob, target);
      StillBusy(slots1, f.c.slots, inob);
      StillBusy(slots1, f.c.slots, dirb);
      PinsNest3(slots, slots1, f.c.slots, inob, dirb);
      FileBecomesLink(img1, f.c.Contents(), f.g, f.nextb, f.nextinode, fs1, f.fs, ino);
    }
    LinkEntered(was, d, name, host, target, isNew, ino, Run(f).fs);
    TableSame(f.hardlinks, f.fs);
    ReleaseBoth(f, dirb, inob);
    return Done;
  }

  lemma FileBecomesLink(img: Image, img': Image, g: Geometry, nextb: nat, nextinode: nat, fs: Fs, fs': Fs, x: nat)
    requires NlinksOk(img, g, fs) && NlinksKept(img, img', g, -1) && FsCore(img', g, nextb, nextinode, fs', -1, {}) && x in fs.files && x != 0
    requires fs'.log == fs.log && fs'.dirs == fs.dirs && fs'.files.Keys <= fs.files.Keys && fs'.links.Keys == fs.links.Keys + {x}
    ensures NlinksOk(img', g, fs')
  {
    hide FsCore, IGet, CountNamed, CountSubdirs;
    InodeBounds(img', g, nextb, nextinode, fs', -1, {});
  }

  // ---------------------------------------------------------------- directories

  lemma DirTypes(slots: Slots, g: Geometry, nextb: nat, fs: Fs, fs': Fs, x: nat)
    requires PinsOk(slots, g, nextb, fs, NONE) && fs'.role == fs.role && fs'.dirs == fs.dirs + {x} && NoBlocks(fs.role, x)
    ensures PinsOk(slots, g, nextb, fs', NONE)
  {
  }

  method SetFtypeDir(f: Formatter, x: nat, inob: nat)
    requires f.Inv(-1, NONE) && x in f.fs.files && f.fs.files[x] == [] && NoBlocks(f.fs.role, x) && f.Pins(inob, InodeBlock(f.g, x))
    modifies f`fs, f.c
    ensures f.Inv(-1, NONE) && SamePins(old(f.c.slots), f.c.slots) && f.Pins(inob, InodeBlock(f.g, x))
    ensures f.fs == old(f.fs).(files := old(f.fs).files - {x}, dirs := old(f.fs).dirs + {x})
    ensures NlinksKept(old(f.c.Contents()), f.c.Contents(), f.g, -1)
  {
    hide FsCore, SamePins, Unpin, PinsOk, NlinksKept, NoBlocks, SetWord;
    assert NONE.Keys == {};
    FsMakeDir(f.c.Contents(), f.g, f.nextb, f.nextinode, f.fs, x, {});
    f.c.Shows(inob);
    ghost var slots := f.c.slots;
    Poke(f, inob, InodeBlock(f.g, x), SetWord(f.c.slots[inob].data, InodeWord(x, FTYPE), FTYPE_DIR));
    SamePinsAlso(slots, f.c.slots, f.g, f.nextb, f.fs, NONE);
    f.fs := f.fs.(files := f.fs.files - {x}, dirs := f.fs.dirs + {x});
    DirTypes(f.c.slots, f.g, f.nextb, old(f.fs), f.fs, x);
  }

  /** The link counts before (a) and after (e) a new directory x has been made in d. */
  lemma NewDirCounts(a: Image, b: Image, c: Image, dd: Image, e: Image, g: Geometry, d: nat, x: nat)
    requires NlinksKept(a, b, g, -1) && NlinksKept(b, c, g, d) && NlinksKept(c, dd, g, -1) && NlinksKept(dd, e, g, x)
    requires IGet(c, g, d, NLINK) == (IGet(b, g, d, NLINK) + 1) % MOD32 && d != x && d < g.ninodes
    ensures forall i: nat :: i < g.ninodes && i != x && i != d ==> IGet(e, g, i, NLINK) == IGet(a, g, i, NLINK)
    ensures IGet(e, g, d, NLINK) == (IGet(a, g, d, NLINK) + 1) % MOD32
  {
    hide IGet;
  }

  /** A directory entry with a new inode. */
  method NewEntry(f: Formatter, d: nat, dslot: nat, name: seq<byte>) returns (r: Status, x: nat, inob: nat, dirb: nat)
    requires f.Inv(-1, NONE) && d in f.fs.dirs && f.Pins(dslot, InodeBlock(f.g, d)) && 0 !in name && 0 < f.nextinode
    modifies f`nextb, f`nextinode, f`fs, f.c
    ensures f.c.Valid() && (r == Aborted(NameTooLong) <==> |name| > 123)
    ensures f.nextb <= old(f.nextb) + PlaceDemand(old(Run(f)), d, name, 0).blocks
    ensures Justified(r, f.g, old(f.c.slots), old(f.nextb), PlaceDemand(old(Run(f)), d, name, 0))
    ensures r.Done? ==> f.Inv(-1, NONE) && x == old(f.nextinode) && f.nextinode == x + 1 && NoBlocks(f.fs.role, x)
    ensures r.Done? ==> f.fs == old(f.fs).(role := f.fs.role, files := old(f.fs).files[x := []], log := old(f.fs).log + [Named(d, Entry(x, name))])
    ensures r.Done? ==> NlinksKept(old(f.c.Contents()), f.c.Contents(), f.g, -1) && f.Pins(dslot, InodeBlock(f.g, d))
    ensures r.Done? ==> f.Pins(inob, InodeBlock(f.g, x)) && dirb < NSLOTS && f.c.slots[dirb].busy > 0
    ensures r.Done? ==> f.c.slots[dirb].bno != f.c.slots[inob].bno
    ensures r.Done? ==> SamePins(old(f.c.slots), Unpin(Unpin(f.c.slots, inob), dirb))
  {
    hide FsCore, SamePins, Unpin, PinsOk, NlinksKept, NoBlocks, HasRoom, NextEntryBlock, IGet, NameAt, Short, EntryCost;
    assert NONE.Keys == {};
    x, inob, dirb := 0, 0, 0;
    ghost var img, slots := f.c.Contents(), f.c.slots;
    var q;
    ghost var nextb, need := f.nextb, PlaceDemand(Run(f), d, name, 0);
    r, dirb, q := AllocDirEntry(f, d, dslot, name);
    if r.Aborted? {
      JustifiedMore(r, f.g, slots, nextb, EntryDemand(|Entries(old(f.fs).log, d)|, name), nextb, need);
      return;
    }
    ghost var img1, slots1 := f.c.Contents(), f.c.slots;
    RoomHome(img1, f.g, f.nextb, f.nextinode, f.fs, d, {});
    ghost var next1 := f.nextinode;
    r, x, inob := AllocInode(f, d, dirb, q, name);
    if r.Aborted? {
      PlaceJustified(r, f.g, slots, slots1, dirb, nextb, f.nextb, next1 + 1, need);
      return;
    }
    NlinksTrans(img, img1, f.c.Contents(), f.g, -1);
    StillPinned(slots, slots1, dirb, dslot);
    StillPinned(slots1, f.c.slots, inob, dslot);
    StillPinned(slots1, f.c.slots, inob, dirb);
    PinsNest2(slots, slots1, f.c.slots, dirb, inob);
    FsCoreBounds(f.c.Contents(), f.g, f.nextb, f.nextinode, f.fs, -1, {});
    InodeInTable(f.g, x);
  }

  /** The beginning of writedirectory: an entry and an inode for an empty directory, whose size
      is zero already. */
  method MakeDirectory(f: Formatter, d: nat, dslot: nat, name: seq<byte>) returns (r: Status, x: nat, inob: nat, dirb: nat)
    requires Sound(f) && d in f.fs.dirs && f.Pins(dslot, InodeBlock(f.g, d)) && 0 !in name
    modifies f`nextb, f`nextinode, f`fs, f.c
    ensures f.c.Valid() && (r == Aborted(NameTooLong) <==> |name| > 123)
    ensures f.nextb <= old(f.nextb) + PlaceDemand(old(Run(f)), d, name, 0).blocks
    ensures Justified(r, f.g, old(f.c.slots), old(f.nextb), PlaceDemand(old(Run(f)), d, name, 0))
    ensures r.Done? ==> Sound(f) && Run(f) == AddDir(old(Run(f)), d, name) && x == old(f.nextinode)
    ensures r.Done? ==> f.Pins(inob, InodeBlock(f.g, x)) && dirb < NSLOTS && f.c.slots[dirb].busy > 0
    ensures r.Done? ==> f.c.slots[dirb].bno != f.c.slots[inob].bno
    ensures r.Done? ==> SamePins(old(f.c.slots), Unpin(Unpin(f.c.slots, inob), dirb))
  {
    hide FsCore, SamePins, Unpin, PinsOk, NlinksKept, NlinksOk, NoBlocks, MadeDir, Short, PlaceDemand;
    assert NONE.Keys == {};
    ghost var img, slots, fs := f.c.Contents(), f.c.slots, f.fs;
    InodeBounds(img, f.g, f.nextb, f.nextinode, fs, -1, {});
    r, x, inob, dirb := NewEntry(f, d, dslot, name);
    if r.Aborted? {
      return;
    }
    ghost var img2, slots2 := f.c.Contents(), f.c.slots;
    DirectoryInode(f, d, dslot, x, inob);
    PinsNest3(slots, slots2, f.c.slots, inob, dirb);
    StillBusy(slots2, f.c.slots, dirb);
    StillBusy(slots2, f.c.slots, inob);
    assert f.fs.files == fs.files;
    NewDirSound(img, img2, f, fs, d, Entry(x, name));
  }

  /** Inode x becomes a directory in d with link count one. */
  ghost predicate MadeDir(img: Image, img': Image, g: Geometry, d: nat, x: nat) {
    && (forall i: nat :: i < g.ninodes && i != x && i != d ==> IGet(img', g, i, NLINK) == IGet(img, g, i, NLINK))
    && IGet(img', g, d, NLINK) == (IGet(img, g, d, NLINK) + 1) % MOD32 && IGet(img', g, x, NLINK) == 1
  }

  method DirectoryInode(f: Formatter, d: nat, dslot: nat, x: nat, inob: nat)
    requires f.Inv(-1, NONE) && d in f.fs.dirs && f.Pins(dslot, InodeBlock(f.g, d))
    requires x in f.fs.files && f.fs.files[x] == [] && NoBlocks(f.fs.role, x) && f.Pins(inob, InodeBlock(f.g, x))
    modifies f`fs, f.c
    ensures f.Inv(-1, NONE) && SamePins(old(f.c.slots), f.c.slots)
    ensures f.fs == old(f.fs).(files := old(f.fs).files - {x}, dirs := old(f.fs).dirs + {x})
    ensures MadeDir(old(f.c.Contents()), f.c.Contents(), f.g, d, x)
  {
    hide FsCore, SamePins, PinsOk, NlinksKept, NoBlocks, IGet;
    ghost var img, slots := f.c.Contents(), f.c.slots;
    InodeBounds(img, f.g, f.nextb, f.nextinode, f.fs, -1, NONE.Keys);
    NothingMoved(img, f.g);
    BumpNlink(f, d, dslot);
    ghost var img1, slots1 := f.c.Contents(), f.c.slots;
    StillBusy(slots, slots1, inob);
    SetFtypeDir(f, x, inob);
    ghost var img2, slots2 := f.c.Contents(), f.c.slots;
    SetNlink(f, x, inob, 1);
    NewDirCounts(img, img, img1, img2, f.c.Contents(), f.g, d, x);
    SamePinsTrans(slots, slots1, slots2);
    SamePinsTrans(slots, slots2, f.c.slots);
  }

  lemma NewDirSound(img: Image, img2: Image, f: Formatter, fs: Fs, d: nat, e: Entry)
    requires f.Inv(-1, NONE) && NlinksOk(img, f.g, fs) && NlinksKept(img, img2, f.g, -1) && MadeDir(img2, f.c.Contents(), f.g, d, e.ino)
    requires f.fs.log == fs.log + [Named(d, e)] && f.fs.dirs == fs.dirs + {e.ino} && d in fs.dirs && d != e.ino
    requires f.fs.files.Keys == fs.files.Keys && f.fs.links.Keys == fs.links.Keys && e.ino !in fs.dirs
    requires forall k :: 0 <= k < |fs.log| ==> fs.log[k].entry.ino != e.ino && fs.log[k].dir != e.ino
    ensures NlinksOk(f.c.Contents(), f.g, f.fs)
  {
    hide FsCore, PinsOk, NlinksOk, CountNamed, CountSubdirs, IGet;
    InodeBounds(f.c.Contents(), f.g, f.nextb, f.nextinode, f.fs, -1, NONE.Keys);
    NlinksNewDir(img, f.c.Contents(), f.g, fs, f.fs, d, e);
  }

  /** writedirectory for a directory other than the root. */
  method WriteDirectory(f: Formatter, d: nat, dslot: nat, name: seq<byte>, items: seq<Host>) returns (r: Status)
    requires Sound(f) && d in f.fs.dirs && f.Pins(dslot, InodeBlock(f.g, d)) && 0 !in name && HostNames(items)
    modifies f`nextb, f`nextinode, f`fs, f`hardlinks, f.c
    ensures f.c.Valid() && (r.Done? ==> f.nextb <= old(f.nextb) + ItemDemand(old(Run(f)), d, HostDir(name, items)).blocks)
    ensures Justified(r, f.g, old(f.c.slots), old(f.nextb), ItemDemand(old(Run(f)), d, HostDir(name, items)))
    ensures r.Done? ==> |name| <= 123 && NamesFit(items)
    ensures r.Done? ==> Sound(f) && Run(f) == AddItems(AddDir(old(Run(f)), d, name), old(f.nextinode), items)
    ensures r.Done? ==> SamePins(old(f.c.slots), f.c.slots)
    decreases items, 2
  {
    hide FsCore, SamePins, Unpin, PinsOk, NlinksOk, TableOk, Short, PlaceDemand, ItemsDemand;
    ghost var slots := f.c.slots;
    var x, inob, dirb;
    ghost var was, nextb := Run(f), f.nextb;
    ghost var need := ItemDemand(was, d, HostDir(name, items));
    r, x, inob, dirb := MakeDirectory(f, d, dslot, name);
    if r.Aborted? {
      JustifiedMore(r, f.g, slots, nextb, PlaceDemand(was, d, name, 0), nextb, need);
      return;
    }
    ghost var slots1 := f.c.slots;
    assert x in f.fs.dirs by {
      assert Run(f).fs.dirs == old(Run(f)).fs.dirs + {x};
    }
    ghost var inner, nextb1 := ItemsDemand(Run(f), x, items), f.nextb;
    r := WriteItems(f, x, inob, items);
    if r.Aborted? {
      JustifiedBefore2(r, f.g, slots, slots1, inob, dirb, nextb1, inner);
      JustifiedMore(r, f.g, slots, nextb1, inner.(slots := inner.slots + 2), nextb, need);
      return;
    }
    StillBusy(slots1, f.c.slots, inob);
    StillBusy(slots1, f.c.slots, dirb);
    PinsNest3(slots, slots1, f.c.slots, inob, dirb);
    ReleaseBoth(f, dirb, inob);
  }

  /** What is left to do fits into what the whole takes. */
  ghost predicate Left(nextb: nat, need: Demand, nextb': nat, need': Demand) {
    && nextb' + need'.blocks <= nextb + need.blocks && need'.slots <= need.slots
    && need'.spare <= need.spare && need'.next <= need.next && (need.names ==> need'.names)
  }

  /** The loop of writedirectory over the files of a host directory. */
  method WriteItems(f: Formatter, d: nat, dslot: nat, items: seq<Host>) returns (r: Status)
    requires Sound(f) && d in f.fs.dirs && f.Pins(dslot, InodeBlock(f.g, d)) && HostNames(items)
    modifies f`nextb, f`nextinode, f`fs, f`hardlinks, f.c
    ensures f.c.Valid() && (r.Done? ==> f.nextb <= old(f.nextb) + ItemsDemand(old(Run(f)), d, items).blocks)
    ensures Justified(r, f.g, old(f.c.slots), old(f.nextb), ItemsDemand(old(Run(f)), d, items))
    ensures r.Done? ==> NamesFit(items)
    ensures r.Done? ==> Sound(f) && Run(f) == AddItems(old(Run(f)), d, items)
    ensures r.Done? ==> SamePins(old(f.c.slots), f.c.slots)
    decreases items, 1
  {
    hide FsCore, SamePins, Unpin, PinsOk, NlinksOk, TableOk, Short;
    var i := 0;
    SamePinsSelf(f.c.slots, f.g.nblocks);
    while i < |items|
      invariant i <= |items| && Sound(f) && d in f.fs.dirs && HostNames(items[i..])
      invariant AddItems(Run(f), d, items[i..]) == AddItems(old(Run(f)), d, items)
      invariant SamePins(old(f.c.slots), f.c.slots) && (NamesFit(items[i..]) ==> NamesFit(items))
      invariant Left(old(f.nextb), ItemsDemand(old(Run(f)), d, items), f.nextb, ItemsDemand(Run(f), d, items[i..]))
    {
      ghost var slots, nextb, need := f.c.slots, f.nextb, ItemsDemand(Run(f), d, items[i..]);
      StillBusy(old(f.c.slots), slots, dslot);
      assert items[0..] == items && items[i..][0] == items[i] && items[i..][1..] == items[i + 1..];
      r := WriteItem(f, d, dslot, items[i], items[i..]);
      if r.Aborted? {
        JustifiedSame(r, f.g, old(f.c.slots), slots, nextb, need);
        JustifiedMore(r, f.g, old(f.c.slots), nextb, need, old(f.nextb), ItemsDemand(old(Run(f)), d, items));
        return;
      }
      SamePinsTrans(old(f.c.slots), slots, f.c.slots);
      i := i + 1;
    }
    return Done;
  }

  /** Byte i of a C string; its end is a zero byte. */
  function At(name: seq<byte>, i: nat): int {
    if i < |name| then name[i] else 0
  }

  /** The tests by which writedirectory tells the directories that it enters. */
  predicate Enters(name: seq<byte>) {
    && (|name| > 1 || At(name, 0) != '.' as int)
    && (|name| > 2 || At(name, 0) != '.' as int || At(name, 1) != '.' as int)
    && (|name| > 3 || At(name, 0) != 'C' as int || At(name, 1) != 'V' as int || At(name, 2) != 'S' as int)
    && (|name| > 4 || At(name, 0) != '.' as int || At(name, 1) != 's' as int || At(name, 2) != 'v' as int || At(name, 3) != 'n' as int)
    && (|name| > 4 || At(name, 0) != '.' as int || At(name, 1) != 'g' as int || At(name, 2) != 'i' as int || At(name, 3) != 't' as int)
  }

  /** They refuse five names. */
  lemma EntersExact(name: seq<byte>)
    ensures Enters(name) <==> !Skipped(name)
    ensures Enters(name) <==> name !in {[46], [46, 46], [67, 86, 83], [46, 115, 118, 110], [46, 103, 105, 116]}
  {
    assert |name| == 1 ==> name == [At(name, 0)];
    assert |name| == 2 ==> name == [At(name, 0), At(name, 1)];
    assert |name| == 3 ==> name == [At(name, 0), At(name, 1), At(name, 2)];
    assert |name| == 4 ==> name == [At(name, 0), At(name, 1), At(name, 2), At(name, 3)];
  }

  /** What writedirectory does with one file of a host directory. */
  method WriteItem(f: Formatter, d: nat, dslot: nat, h: Host, ghost rest: seq<Host>) returns (r: Status)
    requires Sound(f) && d in f.fs.dirs && f.Pins(dslot, InodeBlock(f.g, d))
    requires rest != [] && rest[0] == h && HostNames(rest)
    modifies f`nextb, f`nextinode, f`fs, f`hardlinks, f.c
    ensures f.c.Valid() && Justified(r, f.g, old(f.c.slots), old(f.nextb), ItemsDemand(old(Run(f)), d, rest))
    ensures r.Done? ==> Left(old(f.nextb), ItemsDemand(old(Run(f)), d, rest), f.nextb, ItemsDemand(Run(f), d, rest[1..]))
    ensures r.Done? && NamesFit(rest[1..]) ==> NamesFit(rest)
    ensures r.Done? ==> Sound(f) && d in f.fs.dirs && AddItems(Run(f), d, rest[1..]) == AddItems(old(Run(f)), d, rest)
    ensures r.Done? ==> SamePins(old(f.c.slots), f.c.slots)
    decreases rest, 0
  {
    hide FsCore, SamePins, Unpin, PinsOk, NlinksOk, TableOk, Short, PlaceDemand, FileDemand;
    ghost var was, slots, nextb := Run(f), f.c.slots, f.nextb;
    if h.HostDir? {
      EntersExact(h.name);
    }
    if h.HostFile? {
      r := WriteFile(f, d, dslot, h.name, h.host, h.bytes);
    } else if h.HostDir? && Enters(h.name) {
      r := WriteDirectory(f, d, dslot, h.name, h.items);
      DirsGrow(AddDir(was, d, h.name), was.next, h.items);
    } else if h.HostLink? && |h.target| <= MAXSYMLINKLEN {
      r := AddSymlink(f, d, dslot, h.name, h.host, h.target);
    } else {
      SamePinsSelf(f.c.slots, f.g.nblocks);
      return Done;
    }
    JustifiedMore(r, f.g, slots, nextb, ItemDemand(was, d, h), nextb, ItemsDemand(was, d, rest));
    assert r.Done? ==> was.fs.dirs <= Run(f).fs.dirs;
  }
}
