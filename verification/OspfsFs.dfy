/** The state of a whole OSPFS image while it is being built: which inode is what, which block
    is whose, and what every file, directory and link contains. */
module OspfsFs {
  import opened OspfsLayout
  import opened OspfsContents

  /** A directory entry together with the directory it is in. */
  datatype Named = Named(dir: nat, entry: Entry)

  /** Files with their bytes, directories, links with their targets, and every directory entry
      in the order in which it was made. */
  datatype Fs = Fs(role: Roles, files: map<nat, seq<byte>>, dirs: set<nat>, links: map<nat, seq<byte>>, log: seq<Named>)

  function Live(fs: Fs): set<nat> {
    fs.files.Keys + fs.dirs
  }

  function Entries(log: seq<Named>, d: nat): seq<Entry> {
    if log == [] then []
    else
      Entries(log[..|log| - 1], d) + (if log[|log| - 1].dir == d then [log[|log| - 1].entry] else [])
  }

  lemma EntriesNext(log: seq<Named>, n: Named, d: nat)
    ensures Entries(log + [n], d) == Entries(log, d) + (if n.dir == d then [n.entry] else [])
  {
    assert (log + [n])[..|log|] == log;
  }

  ghost predicate FilesOk(img: Image, g: Geometry, fs: Fs, open: int) {
    forall i :: i in fs.files && i != open ==> FileOk(img, g, fs.role, i, fs.files[i])
  }

  ghost predicate DirsOk(img: Image, g: Geometry, fs: Fs, open: int) {
    forall d :: d in fs.dirs && d != open ==> DirOk(img, g, fs.role, d, Entries(fs.log, d))
  }

  ghost predicate LinksOk(img: Image, g: Geometry, fs: Fs, open: int) {
    forall i :: i in fs.links && i != open ==> LinkOk(img, g, i, fs.links[i])
  }

  ghost predicate BlankInode(img: Image, g: Geometry, i: nat) {
    forall o :: 0 <= o < 64 ==> InodeByte(img, g, i, o) == 0
  }

  /** The inodes below nextinode are each exactly one of file, directory and link; the others
      are blank. */
  ghost predicate InodesOk(img: Image, g: Geometry, nextinode: nat, fs: Fs) {
    && nextinode <= g.ninodes
    && (forall i: nat :: i < nextinode <==> i in fs.files || i in fs.dirs || i in fs.links)
    && fs.files.Keys !! fs.dirs && fs.files.Keys !! fs.links.Keys && fs.dirs !! fs.links.Keys
    && (forall i: nat :: nextinode <= i < g.ninodes ==> BlankInode(img, g, i))
    && (forall k :: 0 <= k < |fs.log| ==> fs.log[k].dir in fs.dirs && 0 < fs.log[k].entry.ino < nextinode)
  }

  /** The blocks handed out are those below nextb; all of them but the pending ones are owned. */
  ghost predicate BlocksOk(g: Geometry, nextb: nat, fs: Fs, pending: set<nat>) {
    && g.firstdata <= nextb <= g.nblocks
    && (forall b: nat :: b in fs.role <==> g.firstdata <= b < nextb && b !in pending)
    && (forall b :: b in pending ==> g.firstdata <= b < nextb)
  }

  function OnesBlock(): Block {
    seq(1024, _ => 255)
  }

  const ONES: Block := OnesBlock()

  /** The boot block and the superblock are still empty, and the bitmap is all ones. */
  ghost predicate LowOk(img: Image, g: Geometry) {
    forall b: nat :: b < g.firstinob && b < |img| ==> img[b] == if b < FREEMAP_BLK then ZERO else ONES
  }

  ghost predicate FsCore(img: Image, g: Geometry, nextb: nat, nextinode: nat, fs: Fs, open: int, pending: set<nat>) {
    FsTree(img, g, nextb, nextinode, fs, open, pending) && LowOk(img, g)
  }

  /** Everything but the contents of the inode that is open, if any. */
  ghost predicate FsTree(img: Image, g: Geometry, nextb: nat, nextinode: nat, fs: Fs, open: int, pending: set<nat>) {
    && Owned(img, g, fs.role, Live(fs))
    && BlocksOk(g, nextb, fs, pending)
    && InodesOk(img, g, nextinode, fs)
    && FilesOk(img, g, fs, open) && DirsOk(img, g, fs, open) && LinksOk(img, g, fs, open)
  }

  // ---------------------------------------------------------------- what others keep

  lemma FilesConfined(img: Image, img': Image, g: Geometry, fs: Fs, role': Roles, x: nat)
    requires Owned(img, g, fs.role, Live(fs)) && Confined(img, img', g, fs.role, role', x)
    requires FilesOk(img, g, fs, x)
    ensures FilesOk(img', g, fs.(role := role'), x)
  {
    forall i | i in fs.files && i != x
      ensures FileOk(img', g, role', i, fs.files[i])
    {
      hide Owned, Confined, Ref, Body, SameData, HasBlocks;
      var n := Nblocks(|fs.files[i]|);
      assert HasBlocks(fs.role, i, n) by { BodyBlocks(img, g, fs.role, i, n, fs.files[i]); }
      ConfinedSame(img, img', g, fs.role, role', Live(fs), x, i);
      ConfinedHas(img, img', g, fs.role, role', x, i, n);
      BodyKept(img, img', g, fs.role, role', i, n, fs.files[i]);
      SameAttributes(img, img', g, fs.role, i);
    }
  }

  lemma BodyBlocks(img: Image, g: Geometry, role: Roles, i: nat, n: nat, content: seq<byte>)
    requires Body(img, g, role, i, n, content)
    ensures HasBlocks(role, i, n)
  {
  }

  lemma SameAttributes(img: Image, img': Image, g: Geometry, role: Roles, i: nat)
    requires SameData(img, img', g, role, i)
    ensures IGet(img', g, i, SIZE) == IGet(img, g, i, SIZE) && IGet(img', g, i, FTYPE) == IGet(img, g, i, FTYPE)
    ensures IGet(img', g, i, NLINK) == IGet(img, g, i, NLINK) && IGet(img', g, i, MODE) == IGet(img, g, i, MODE)
  {
  }

  lemma DirsConfined(img: Image, img': Image, g: Geometry, fs: Fs, role': Roles, x: nat)
    requires Owned(img, g, fs.role, Live(fs)) && Confined(img, img', g, fs.role, role', x)
    requires DirsOk(img, g, fs, x)
    ensures DirsOk(img', g, fs.(role := role'), x)
  {
    forall d | d in fs.dirs && d != x
      ensures DirOk(img', g, role', d, Entries(fs.log, d))
    {
      var n := IGet(img, g, d, SIZE) / 1024;
      ConfinedSame(img, img', g, fs.role, role', Live(fs), x, d);
      ConfinedHas(img, img', g, fs.role, role', x, d, n);
      DirBodyKept(img, img', g, fs.role, role', d, n, Entries(fs.log, d));
      SameAttributes(img, img', g, fs.role, d);
      hide Owned, Confined, Ref, DirBody, SameData, HasBlocks, Word;
    }
  }

  lemma LinksConfined(img: Image, img': Image, g: Geometry, nextinode: nat, fs: Fs, role': Roles, x: nat)
    requires Owned(img, g, fs.role, Live(fs)) && InodesOk(img, g, nextinode, fs)
    requires Confined(img, img', g, fs.role, role', x)
    requires LinksOk(img, g, fs, x)
    ensures LinksOk(img', g, fs.(role := role'), x)
    ensures x < nextinode ==> InodesOk(img', g, nextinode, fs.(role := role'))
  {
    forall i | i in fs.links && i != x
      ensures LinkOk(img', g, i, fs.links[i])
    {
      InodeInTable(g, i);
      assert SameInode(img, img', g, i);
      LinkKept(img, img', g, i, fs.links[i]);
    }
    forall i: nat | nextinode <= i < g.ninodes && i != x
      ensures BlankInode(img', g, i)
    {
      assert BlankInode(img, g, i) && SameInode(img, img', g, i);
    }
  }

  /** A change confined to inode x keeps everything that is said about the others. */
  lemma FsConfined(img: Image, img': Image, g: Geometry, nextb: nat, nextinode: nat, fs: Fs, x: nat, pending: set<nat>,
                   role': Roles, nextb': nat, pending': set<nat>)
    requires FsCore(img, g, nextb, nextinode, fs, x, pending) && x < nextinode
    requires Confined(img, img', g, fs.role, role', x) && Owned(img', g, role', Live(fs))
    requires BlocksOk(g, nextb', fs.(role := role'), pending')
    ensures FsCore(img', g, nextb', nextinode, fs.(role := role'), x, pending')
  {
    FilesConfined(img, img', g, fs, role', x);
    DirsConfined(img, img', g, fs, role', x);
    LinksConfined(img, img', g, nextinode, fs, role', x);
    hide Owned, Confined, FilesOk, DirsOk, LinksOk, InodesOk;
  }

  lemma FsOpen(img: Image, g: Geometry, nextb: nat, nextinode: nat, fs: Fs, x: nat, pending: set<nat>)
    requires FsCore(img, g, nextb, nextinode, fs, -1, pending)
    ensures FsCore(img, g, nextb, nextinode, fs, x, pending)
  {
    hide Owned, FileOk, DirOk, LinkOk;
  }

  /** Handing out the next block, whatever is then written to it, keeps everything. */
  lemma FsFresh(img: Image, g: Geometry, nextb: nat, nextinode: nat, fs: Fs, open: int, pending: set<nat>, content: Block,
                x: nat)
    requires nextb < |img| == g.nblocks && FsCore(img, g, nextb, nextinode, fs, open, pending)
    ensures FsCore(img[nextb := content], g, nextb + 1, nextinode, fs, open, pending + {nextb})
    ensures forall i :: i in Live(fs) ==> SameData(img, img[nextb := content], g, fs.role, i)
    ensures Confined(img, img[nextb := content], g, fs.role, fs.role, x)
  {
    hide FsCore, Owned, BlocksOk, SameData, Confined;
    FsCoreBounds(img, g, nextb, nextinode, fs, open, pending);
    FsScratch(img, g, nextb, nextinode, fs, open, pending, nextb, content, x);
    HandOut(img[nextb := content], g, nextb, nextinode, fs, open, pending);
  }

  lemma HandOut(img: Image, g: Geometry, nextb: nat, nextinode: nat, fs: Fs, open: int, pending: set<nat>)
    requires FsCore(img, g, nextb, nextinode, fs, open, pending) && nextb < g.nblocks
    ensures FsCore(img, g, nextb + 1, nextinode, fs, open, pending + {nextb})
  {
    hide Owned, InodesOk, FilesOk, DirsOk, LinksOk, LowOk;
  }

  /** Writing to a block that is not owned: one that is pending, or the next one. */
  lemma FsScratch(img: Image, g: Geometry, nextb: nat, nextinode: nat, fs: Fs, open: int, pending: set<nat>, b: nat, content: Block,
                  x: nat)
    requires FsCore(img, g, nextb, nextinode, fs, open, pending)
    requires b !in fs.role && g.firstdata <= b < g.nblocks
    ensures FsCore(img[b := content], g, nextb, nextinode, fs, open, pending)
    ensures forall i :: i in Live(fs) ==> SameData(img, img[b := content], g, fs.role, i)
    ensures Confined(img, img[b := content], g, fs.role, fs.role, x)
  {
    var img' := img[b := content];
    FreshWrite(img, g, fs.role, Live(fs), b, content, x);
    FreshWrite(img, g, fs.role, Live(fs), b, content, g.ninodes);
    ScratchContents(img, img', g, nextinode, fs, open);
    hide Owned, SameData, Confined, FilesOk, DirsOk, LinksOk;
  }

  lemma ScratchContents(img: Image, img': Image, g: Geometry, nextinode: nat, fs: Fs, open: int)
    requires Owned(img, g, fs.role, Live(fs)) && InodesOk(img, g, nextinode, fs)
    requires |img'| == |img| && forall j: nat :: j < g.ninodes ==> SameInode(img, img', g, j)
    requires forall i :: i in Live(fs) ==> SameData(img, img', g, fs.role, i)
    requires FilesOk(img, g, fs, open) && DirsOk(img, g, fs, open) && LinksOk(img, g, fs, open)
    ensures InodesOk(img', g, nextinode, fs)
    ensures FilesOk(img', g, fs, open) && DirsOk(img', g, fs, open) && LinksOk(img', g, fs, open)
  {
    forall i | i in fs.files && i != open
      ensures FileOk(img', g, fs.role, i, fs.files[i])
    {
      BodyKept(img, img', g, fs.role, fs.role, i, Nblocks(|fs.files[i]|), fs.files[i]);
      SameAttributes(img, img', g, fs.role, i);
      hide Owned, Confined, Body, SameData, IGet;
    }
    forall d | d in fs.dirs && d != open
      ensures DirOk(img', g, fs.role, d, Entries(fs.log, d))
    {
      DirBodyKept(img, img', g, fs.role, fs.role, d, IGet(img, g, d, SIZE) / 1024, Entries(fs.log, d));
      SameAttributes(img, img', g, fs.role, d);
      hide Owned, Confined, DirBody, SameData, IGet;
    }
    forall i | i in fs.links && i != open
      ensures LinkOk(img', g, i, fs.links[i])
    {
      InodeInTable(g, i);
      assert SameInode(img, img', g, i);
      LinkKept(img, img', g, i, fs.links[i]);
      hide Owned, Confined;
    }
    forall i: nat | nextinode <= i < g.ninodes
      ensures BlankInode(img', g, i)
    {
      assert BlankInode(img, g, i) && SameInode(img, img', g, i);
    }
    hide Owned, Confined, FileOk, DirOk, LinkOk, SameData;
  }

  // ---------------------------------------------------------------- a new pointer block

  /** The same data blocks belong to inode i, whatever pointer blocks it has. */
  ghost predicate SameDataRoles(role: Roles, role': Roles, i: nat) {
    forall k: nat :: Data(i, k) in role'.Values <==> Data(i, k) in role.Values
  }

  /** Inode i may have gained pointer blocks; nothing else has changed. */
  ghost predicate Rebuilt(img: Image, img': Image, g: Geometry, role: Roles, role': Roles, i: nat) {
    Confined(img, img', g, role, role', i) && SameData(img, img', g, role, i) && SameDataRoles(role, role', i)
  }

  /** Taking the next block as an empty pointer block for inode r.ino. */
  lemma PointerHooked(img: Image, g: Geometry, nextb: nat, nextinode: nat, fs: Fs, r: Role, pending: set<nat>)
    requires nextb < g.nblocks == |img| <= 8192 && r.ino < nextinode && r.ino in Live(fs)
    requires FsCore(img, g, nextb, nextinode, fs, r.ino, pending)
    requires !r.Data? && Anchored(fs.role, Live(fs), r) && r !in fs.role.Values
    ensures SlotBlock(img[nextb := ZERO], g, r) == SlotBlock(img, g, r)
    ensures FsCore(Hook(img[nextb := ZERO], g, r, nextb), g, nextb + 1, nextinode,
                   fs.(role := fs.role[nextb := r]), r.ino, pending)
    ensures Rebuilt(img, Hook(img[nextb := ZERO], g, r, nextb), g, fs.role, fs.role[nextb := r], r.ino)
    ensures r in fs.role[nextb := r].Values && Ref(Hook(img[nextb := ZERO], g, r, nextb), g, r) == nextb
    ensures PendingKept(img, Hook(img[nextb := ZERO], g, r, nextb), pending)
  {
    hide Owned, FsCore, BlocksOk, Confined, SameData, Ref, SlotBlock, Anchored, Hook;
    var img1 := img[nextb := ZERO];
    var img2 := Hook(img1, g, r, nextb);
    var role' := fs.role[nextb := r];
    FsCoreBounds(img, g, nextb, nextinode, fs, r.ino, pending);
    FreshBlockKeepsOwned(img, g, fs.role, Live(fs), nextb, ZERO);
    FsScratch(img, g, nextb, nextinode, fs, r.ino, pending, nextb, ZERO, r.ino);
    HookWrite(img1, g, fs.role, Live(fs), r, nextb);
    ConfinedTrans(img, img1, img2, g, fs.role, fs.role, role', r.ino);
    OwnNext(g, nextb, fs, r, pending);
    FsConfined(img1, img2, g, nextb, nextinode, fs, r.ino, pending, role', nextb + 1, pending);
    SameDataTrans(img, img1, img2, g, fs.role, r.ino);
    SlotNotPending(img, g, nextb, nextinode, fs, r, pending, nextb);
  }

  ghost predicate PendingKept(img: Image, img': Image, pending: set<nat>) {
    |img'| == |img| && forall b :: b in pending && b < |img| ==> img'[b] == img[b]
  }

  lemma PendingBlock(img: Image, img': Image, pending: set<nat>, b: nat)
    requires PendingKept(img, img', pending) && b in pending && b < |img|
    ensures |img'| == |img| && img'[b] == img[b]
  {
  }

  lemma SlotNotPending(img: Image, g: Geometry, nextb: nat, nextinode: nat, fs: Fs, r: Role, pending: set<nat>, b: word)
    requires FsCore(img, g, nextb, nextinode, fs, r.ino, pending) && Anchored(fs.role, Live(fs), r) && nextb < |img|
    ensures PendingKept(img, Hook(img[nextb := ZERO], g, r, b), pending)
  {
    hide FilesOk, DirsOk, LinksOk, InodesOk;
    SlotHome(img, g, fs.role, Live(fs), r);
    FreshBlockKeepsOwned(img, g, fs.role, Live(fs), nextb, ZERO);
    assert SlotBlock(img, g, r) !in pending;
    hide SlotBlock, Ref;
  }

  lemma FsCoreBounds(img: Image, g: Geometry, nextb: nat, nextinode: nat, fs: Fs, open: int, pending: set<nat>)
    requires FsCore(img, g, nextb, nextinode, fs, open, pending)
    ensures Owned(img, g, fs.role, Live(fs)) && BlocksOk(g, nextb, fs, pending)
    ensures ValidGeometry(g) && |img| == g.nblocks
    ensures g.firstdata <= nextb <= g.nblocks && nextinode <= g.ninodes
    ensures nextb !in fs.role && nextb !in pending && forall b :: b in fs.role ==> b < |img|
  {
    hide FilesOk, DirsOk, LinksOk;
  }

  lemma OwnNext(g: Geometry, nextb: nat, fs: Fs, r: Role, pending: set<nat>)
    requires BlocksOk(g, nextb, fs, pending) && nextb < g.nblocks
    ensures BlocksOk(g, nextb + 1, fs.(role := fs.role[nextb := r]), pending)
  {
  }

  lemma NothingChanged(img: Image, g: Geometry, role: Roles, x: nat, pending: set<nat>)
    requires forall b :: b in role ==> b < |img|
    ensures Rebuilt(img, img, g, role, role, x) && PendingKept(img, img, pending)
  {
    hide Ref, IGet, InodeByte;
  }

  lemma SameDataTrans(a: Image, b: Image, c: Image, g: Geometry, role: Roles, i: nat)
    requires SameData(a, b, g, role, i) && SameData(b, c, g, role, i)
    ensures SameData(a, c, g, role, i)
  {
    hide Ref, IGet;
  }

  /** Hooking a pending block as the next data block of inode i. */
  lemma DataHooked(img: Image, g: Geometry, nextb: nat, nextinode: nat, fs: Fs, i: nat, n: nat, b: nat, pending: set<nat>)
    requires FsCore(img, g, nextb, nextinode, fs, i, pending) && i < nextinode && b in pending
    requires HasBlocks(fs.role, i, n) && n < MAXFILEBLKS && Anchored(fs.role, Live(fs), Data(i, n)) && b < g.nblocks <= 8192
    ensures FsCore(Hook(img, g, Data(i, n), b), g, nextb, nextinode, fs.(role := fs.role[b := Data(i, n)]), i, pending - {b})
    ensures Grown(img, Hook(img, g, Data(i, n), b), g, fs.role, fs.role[b := Data(i, n)], i, n, b)
  {
    hide Owned, FsCore, BlocksOk, Confined, SameData, Hook, Ref, SlotBlock, Anchored, HasBlocks;
    var r := Data(i, n);
    var img', role' := Hook(img, g, r, b), fs.role[b := r];
    FsCoreBounds(img, g, nextb, nextinode, fs, i, pending);
    NotYetOwned(g, nextb, fs, i, n, b, pending);
    HookWrite(img, g, fs.role, Live(fs), r, b);
    HasBlocksNext(fs.role, i, n, b);
    FsConfined(img, img', g, nextb, nextinode, fs, i, pending, role', nextb, pending - {b});
  }

  lemma NotYetOwned(g: Geometry, nextb: nat, fs: Fs, i: nat, n: nat, b: nat, pending: set<nat>)
    requires BlocksOk(g, nextb, fs, pending) && b in pending && HasBlocks(fs.role, i, n) && n < MAXFILEBLKS
    ensures b !in fs.role && g.firstdata <= b < g.nblocks && Data(i, n) !in fs.role.Values
    ensures BlocksOk(g, nextb, fs.(role := fs.role[b := Data(i, n)]), pending - {b})
  {
  }

  lemma RebuiltGrown(a: Image, b: Image, c: Image, g: Geometry, ra: Roles, rb: Roles, rc: Roles, i: nat, n: nat, x: nat)
    requires Rebuilt(a, b, g, ra, rb, i) && Grown(b, c, g, rb, rc, i, n, x)
    requires x < |a| == |b| && b[x] == a[x]
    ensures Grown(a, c, g, ra, rc, i, n, x)
  {
    ConfinedTrans(a, b, c, g, ra, rb, rc, i);
    hide Confined, Ref, IGet;
  }

  lemma RebuiltHas(a: Image, b: Image, g: Geometry, ra: Roles, rb: Roles, i: nat, n: nat)
    requires Rebuilt(a, b, g, ra, rb, i) && HasBlocks(ra, i, n)
    ensures HasBlocks(rb, i, n)
  {
    hide Confined, SameData;
  }
}
