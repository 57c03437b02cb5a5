/** The changes that the kernel module (lab3/ospfsmod.c) makes to a mounted image, and what
    each of them does to the files in it. */
module OspfsGrow {
  import opened OspfsLayout
  import opened OspfsContents
  import opened OspfsBits
  import opened OspfsFs
  import opened OspfsSteps
  import opened OspfsImage

  /** The free blocks are the data blocks without an owner, but for those being given one. */
  ghost predicate FreeOk(img: Image, g: Geometry, role: Roles, pending: set<nat>) {
    forall b: nat :: b < 8192 ==> (IsFree(img, b) <==> g.firstdata <= b < g.nblocks && b !in role && b !in pending)
  }

  ghost predicate PendingOk(g: Geometry, role: Roles, pending: set<nat>) {
    forall b :: b in pending ==> g.firstdata <= b < g.nblocks && b !in role
  }

  /** A mounted image: its blocks are owned or free, and everything but the contents of the
      inode that is open, if any, is right. */
  ghost predicate Mounted(img: Image, g: Geometry, nextinode: nat, fs: Fs, open: int, pending: set<nat>) {
    && Owned(img, g, fs.role, Live(fs)) && InodesOk(img, g, nextinode, fs)
    && FilesOk(img, g, fs, open) && DirsOk(img, g, fs, open) && LinksOk(img, g, fs, open)
    && FreeOk(img, g, fs.role, pending) && PendingOk(g, fs.role, pending) && SuperOk(img[1], g)
  }

  /** A formatted image is ready to be mounted. */
  lemma FormattedMounts(img: Image, g: Geometry, nextb: nat, nextinode: nat, fs: Fs)
    requires Formatted(img, g, nextb, nextinode, fs)
    ensures Mounted(img, g, nextinode, fs, -1, {})
  {
    hide Owned, InodesOk, FilesOk, DirsOk, LinksOk, NlinksOk, IsFree, SuperOk;
  }

  lemma MountedBounds(img: Image, g: Geometry, nextinode: nat, fs: Fs, open: int, pending: set<nat>)
    requires Mounted(img, g, nextinode, fs, open, pending)
    ensures ValidGeometry(g) && |img| == g.nblocks && nextinode <= g.ninodes
    ensures Owned(img, g, fs.role, Live(fs))
    ensures forall b :: b in pending ==> g.firstdata <= b < g.nblocks && b !in fs.role
    ensures forall i :: i in Live(fs) ==> i < nextinode
  {
    hide FilesOk, DirsOk, LinksOk, FreeOk, SuperOk;
  }

  // ---------------------------------------------------------------- the bitmap

  /** A change of the bitmap, or of nothing, that fits a change of the pending blocks. */
  lemma BitmapChange(img: Image, img': Image, g: Geometry, nextinode: nat, fs: Fs, open: int, pending: set<nat>, pending': set<nat>)
    requires Mounted(img, g, nextinode, fs, open, pending) && |img'| == |img|
    requires forall b: nat :: b < |img| && b != FREEMAP_BLK ==> img'[b] == img[b]
    requires FreeOk(img', g, fs.role, pending') && PendingOk(g, fs.role, pending')
    ensures Mounted(img', g, nextinode, fs, open, pending') && LowOnly(img, img', g)
    ensures forall i :: i in Live(fs) ==> SameData(img, img', g, fs.role, i)
  {
    assert 2 < g.firstinob by { hide FilesOk, DirsOk, LinksOk, InodesOk, FreeOk; }
    LowParts(img, img', g, nextinode, fs, open);
    hide FilesOk, DirsOk, LinksOk, Owned, InodesOk, SameData, SuperOk, FreeOk;
  }

  /** allocate_block's change: block b is no longer free. */
  lemma Allocated(img: Image, g: Geometry, nextinode: nat, fs: Fs, open: int, pending: set<nat>, b: nat)
    requires Mounted(img, g, nextinode, fs, open, pending) && b < 8192 && IsFree(img, b)
    ensures Mounted(Cleared(img, b), g, nextinode, fs, open, pending + {b}) && LowOnly(img, Cleared(img, b), g)
    ensures forall i :: i in Live(fs) ==> SameData(img, Cleared(img, b), g, fs.role, i)
    ensures g.firstdata <= b < g.nblocks && b !in fs.role && b !in pending
  {
    hide FilesOk, DirsOk, LinksOk, InodesOk, SuperOk, Cleared, IsFree, SameData, LowOnly;
    assert FREEMAP_BLK < |img|;
    ClearedExact(img, b, b);
    assert FreeOk(Cleared(img, b), g, fs.role, pending + {b}) by {
      forall j: nat | j < 8192
        ensures IsFree(Cleared(img, b), j) <==> g.firstdata <= j < g.nblocks && j !in fs.role && j !in pending + {b}
      {
        ClearedExact(img, b, j);
      }
    }
    BitmapChange(img, Cleared(img, b), g, nextinode, fs, open, pending, pending + {b});
  }

  /** free_block's change, for a block that has no owner. */
  lemma Freed(img: Image, g: Geometry, nextinode: nat, fs: Fs, open: int, pending: set<nat>, b: nat)
    requires Mounted(img, g, nextinode, fs, open, pending) && b in pending
    ensures Mounted(Marked(img, b), g, nextinode, fs, open, pending - {b}) && LowOnly(img, Marked(img, b), g)
    ensures forall i :: i in Live(fs) ==> SameData(img, Marked(img, b), g, fs.role, i)
  {
    hide FilesOk, DirsOk, LinksOk, InodesOk, SuperOk, Marked, IsFree, SameData, LowOnly;
    assert FREEMAP_BLK < |img|;
    MarkedExact(img, b, b);
    assert FreeOk(Marked(img, b), g, fs.role, pending - {b}) by {
      forall j: nat | j < 8192
        ensures IsFree(Marked(img, b), j) <==> g.firstdata <= j < g.nblocks && j !in fs.role && j !in pending - {b}
      {
        MarkedExact(img, b, j);
      }
    }
    BitmapChange(img, Marked(img, b), g, nextinode, fs, open, pending, pending - {b});
  }

  // ---------------------------------------------------------------- blocks

  lemma SameFree(img: Image, img': Image, g: Geometry, role: Roles, pending: set<nat>)
    requires FREEMAP_BLK < |img| == |img'| && img'[FREEMAP_BLK] == img[FREEMAP_BLK] && FreeOk(img, g, role, pending)
    ensures FreeOk(img', g, role, pending)
  {
    hide TestBit;
    forall b: nat | b < 8192
      ensures IsFree(img', b) == IsFree(img, b)
    {
    }
  }

  /** A change to inode x and its blocks. */
  lemma MountedConfined(img: Image, img': Image, g: Geometry, nextinode: nat, fs: Fs, x: nat, pending: set<nat>, role': Roles, pending': set<nat>)
    requires Mounted(img, g, nextinode, fs, x, pending) && x < nextinode
    requires Confined(img, img', g, fs.role, role', x) && Owned(img', g, role', Live(fs))
    requires FreeOk(img, g, role', pending') && PendingOk(g, role', pending')
    ensures Mounted(img', g, nextinode, fs.(role := role'), x, pending')
  {
    FilesConfined(img, img', g, fs, role', x);
    DirsConfined(img, img', g, fs, role', x);
    LinksConfined(img, img', g, nextinode, fs, role', x);
    MountedBounds(img, g, nextinode, fs, x, pending);
    LowBlocks(img, img', g, fs.role, role', x);
    SameFree(img, img', g, role', pending');
    hide Owned, Confined, FilesOk, DirsOk, LinksOk, InodesOk, FreeOk, SuperOk;
  }

  lemma LowBlocks(img: Image, img': Image, g: Geometry, role: Roles, role': Roles, x: nat)
    requires Confined(img, img', g, role, role', x) && ValidGeometry(g) && |img| == g.nblocks
    ensures |img'| == |img| && img'[1] == img[1] && img'[FREEMAP_BLK] == img[FREEMAP_BLK]
  {
  }

  /** Clearing a block that is being given an owner. */
  lemma PendingWritten(img: Image, g: Geometry, nextinode: nat, fs: Fs, open: int, pending: set<nat>, b: nat, data: Block)
    requires Mounted(img, g, nextinode, fs, open, pending) && b in pending && b < |img|
    ensures Mounted(img[b := data], g, nextinode, fs, open, pending)
    ensures forall i :: i in Live(fs) ==> SameData(img, img[b := data], g, fs.role, i)
  {
    var img' := img[b := data];
    MountedBounds(img, g, nextinode, fs, open, pending);
    FreshWrite(img, g, fs.role, Live(fs), b, data, g.ninodes);
    ConfinedTable(img, img', g, fs.role, fs.role, g.ninodes);
    ScratchContents(img, img', g, nextinode, fs, open);
    SameFree(img, img', g, fs.role, pending);
    hide Owned, Confined, FilesOk, DirsOk, LinksOk, InodesOk, FreeOk, SuperOk, SameData;
  }

  lemma ConfinedTable(img: Image, img': Image, g: Geometry, role: Roles, role': Roles, x: nat)
    requires Confined(img, img', g, role, role', x) && x == g.ninodes
    ensures |img'| == |img| && forall j: nat :: j < g.ninodes ==> SameInode(img, img', g, j)
  {
    hide SameInode;
  }

  lemma OwnerTakes(img: Image, g: Geometry, role: Roles, pending: set<nat>, b: nat, r: Role)
    requires FreeOk(img, g, role, pending) && PendingOk(g, role, pending) && b in pending
    ensures FreeOk(img, g, role[b := r], pending - {b}) && PendingOk(g, role[b := r], pending - {b})
  {
    hide IsFree;
  }

  /** A cleared block becomes a pointer block of inode i. */
  lemma PointerAdded(img: Image, g: Geometry, nextinode: nat, fs: Fs, i: nat, r: Role, pending: set<nat>, b: nat)
    requires Mounted(img, g, nextinode, fs, i, pending) && i in Live(fs) && b in pending && b < |img| && img[b] == ZERO
    requires !r.Data? && r.ino == i && Anchored(fs.role, Live(fs), r) && r !in fs.role.Values
    ensures Mounted(Hook(img, g, r, b), g, nextinode, fs.(role := fs.role[b := r]), i, pending - {b})
    ensures Rebuilt(img, Hook(img, g, r, b), g, fs.role, fs.role[b := r], i)
    ensures r in fs.role[b := r].Values && Ref(Hook(img, g, r, b), g, r) == b
  {
    hide FilesOk, DirsOk, LinksOk, InodesOk, FreeOk, SuperOk, Confined, SameData, Ref, SlotBlock, Hook, Owned, PendingOk, Anchored;
    MountedBounds(img, g, nextinode, fs, i, pending);
    HookWrite(img, g, fs.role, Live(fs), r, b);
    OwnerTakes(img, g, fs.role, pending, b, r);
    MountedConfined(img, Hook(img, g, r, b), g, nextinode, fs, i, pending, fs.role[b := r], pending - {b});
  }

  /** A block becomes the n-th data block of inode i. */
  lemma DataAdded(img: Image, g: Geometry, nextinode: nat, fs: Fs, i: nat, pending: set<nat>, n: nat, b: nat)
    requires Mounted(img, g, nextinode, fs, i, pending) && i in Live(fs) && b in pending && b < |img|
    requires HasBlocks(fs.role, i, n) && n < MAXFILEBLKS && Anchored(fs.role, Live(fs), Data(i, n))
    ensures Mounted(Hook(img, g, Data(i, n), b), g, nextinode, fs.(role := fs.role[b := Data(i, n)]), i, pending - {b})
    ensures Grown(img, Hook(img, g, Data(i, n), b), g, fs.role, fs.role[b := Data(i, n)], i, n, b)
  {
    hide FilesOk, DirsOk, LinksOk, InodesOk, FreeOk, SuperOk, Confined, SameData, Ref, SlotBlock, Hook, Owned, PendingOk, Anchored;
    MountedBounds(img, g, nextinode, fs, i, pending);
    HookWrite(img, g, fs.role, Live(fs), Data(i, n), b);
    HasBlocksNext(fs.role, i, n, b);
    OwnerTakes(img, g, fs.role, pending, b, Data(i, n));
    MountedConfined(img, Hook(img, g, Data(i, n), b), g, nextinode, fs, i, pending, fs.role[b := Data(i, n)], pending - {b});
  }

  lemma MountedParts(img: Image, g: Geometry, nextinode: nat, fs: Fs, open: int, pending: set<nat>)
    requires Mounted(img, g, nextinode, fs, open, pending)
    ensures FreeOk(img, g, fs.role, pending) && PendingOk(g, fs.role, pending)
  {
    hide FilesOk, DirsOk, LinksOk, InodesOk, Owned, SuperOk, FreeOk, PendingOk;
  }

  // ---------------------------------------------------------------- sizes and contents

  lemma MountedOpen(img: Image, g: Geometry, nextinode: nat, fs: Fs, x: nat)
    requires Mounted(img, g, nextinode, fs, -1, {})
    ensures Mounted(img, g, nextinode, fs, x, {})
    ensures x in fs.files ==> FileOk(img, g, fs.role, x, fs.files[x])
  {
    hide Owned, FileOk, DirOk, LinkOk, FreeOk, SuperOk;
  }

  lemma MountedClose(img: Image, g: Geometry, nextinode: nat, fs: Fs, x: nat, content: seq<byte>)
    requires Mounted(img, g, nextinode, fs, x, {}) && x in fs.files && FileOk(img, g, fs.role, x, content)
    ensures Mounted(img, g, nextinode, fs.(files := fs.files[x := content]), -1, {})
  {
    var fs' := fs.(files := fs.files[x := content]);
    assert fs'.files.Keys == fs.files.Keys;
    assert Live(fs') == Live(fs);
    ClosedParts(img, g, nextinode, fs, x, content);
    hide Owned, FilesOk, DirsOk, LinksOk, InodesOk, FreeOk, SuperOk;
  }

  lemma ClosedParts(img: Image, g: Geometry, nextinode: nat, fs: Fs, x: nat, content: seq<byte>)
    requires FilesOk(img, g, fs, x) && DirsOk(img, g, fs, x) && LinksOk(img, g, fs, x) && InodesOk(img, g, nextinode, fs)
    requires x in fs.files && FileOk(img, g, fs.role, x, content)
    ensures FilesOk(img, g, fs.(files := fs.files[x := content]), -1) && DirsOk(img, g, fs.(files := fs.files[x := content]), -1)
    ensures LinksOk(img, g, fs.(files := fs.files[x := content]), -1) && InodesOk(img, g, nextinode, fs.(files := fs.files[x := content]))
  {
    hide FileOk, DirOk, LinkOk, BlankInode, Entries;
    assert fs.files[x := content].Keys == fs.files.Keys;
  }

  /** Storing the size of inode i. */
  lemma SizeStored(img: Image, g: Geometry, nextinode: nat, fs: Fs, i: nat, v: word, n: nat, content: seq<byte>, pending: set<nat>)
    requires Mounted(img, g, nextinode, fs, i, pending) && i in Live(fs) && Body(img, g, fs.role, i, n, content)
    ensures Mounted(ISet(img, g, i, SIZE, v), g, nextinode, fs, i, pending)
    ensures Body(ISet(img, g, i, SIZE, v), g, fs.role, i, n, content)
    ensures IGet(ISet(img, g, i, SIZE, v), g, i, SIZE) == v
    ensures IGet(ISet(img, g, i, SIZE, v), g, i, FTYPE) == IGet(img, g, i, FTYPE)
  {
    hide FilesOk, DirsOk, LinksOk, InodesOk, FreeOk, SuperOk, Confined, Owned, ISet, IGet, Body, SameDataBlocks;
    MountedBounds(img, g, nextinode, fs, i, pending);
    AttributeWrite(img, g, fs.role, Live(fs), i, SIZE, v);
    InodeWrite(img, g, fs.role, Live(fs), i, SIZE, v);
    MountedConfined(img, ISet(img, g, i, SIZE, v), g, nextinode, fs, i, pending, fs.role, pending);
    assert fs.(role := fs.role) == fs;
    MountedParts(img, g, nextinode, fs, i, pending);
    BodyHas(img, g, fs.role, i, n, content);
    BodyKept(img, ISet(img, g, i, SIZE, v), g, fs.role, fs.role, i, n, content);
  }

  /** The bytes from position at on replaced. */
  function Splice<T>(s: seq<T>, at: nat, bytes: seq<T>): (r: seq<T>)
    requires at + |bytes| <= |s|
    ensures |r| == |s|
    ensures forall p: nat :: p < |s| ==> r[p] == if at <= p < at + |bytes| then bytes[p - at] else s[p]
  {
    s[..at] + bytes + s[at + |bytes|..]
  }

  function Zeros(n: nat): (z: seq<byte>)
    ensures |z| == n && forall p: nat :: p < n ==> z[p] == 0
  {
    seq(n, _ => 0)
  }

  /** What a file contains after bytes have been written at a position: exactly that range is
      replaced, and a gap before it reads as zeros. */
  function Written(content: seq<byte>, pos: nat, bytes: seq<byte>): (r: seq<byte>)
    ensures |r| == if pos + |bytes| > |content| then pos + |bytes| else |content|
    ensures forall p: nat :: p < |r| ==> r[p] == if pos <= p < pos + |bytes| then bytes[p - pos] else if p < |content| then content[p] else 0
  {
    Splice(Lengthened(content, pos + |bytes|), pos, bytes)
  }

  function Lengthened(content: seq<byte>, size: nat): (r: seq<byte>)
    ensures |r| == if size > |content| then size else |content|
    ensures forall p: nat :: p < |r| ==> r[p] == if p < |content| then content[p] else 0
  {
    if size > |content| then content + Zeros(size - |content|) else content
  }

  /** The blocks of a file hold zeros behind its content. */
  lemma BodyLengthened(img: Image, g: Geometry, role: Roles, i: nat, n: nat, content: seq<byte>, size: nat)
    requires Body(img, g, role, i, n, content) && size <= n * 1024
    ensures Body(img, g, role, i, n, Lengthened(content, size))
  {
    hide ByteOf;
  }

  /** Writing part of one data block of inode i. */
  lemma DataOverwritten(img: Image, g: Geometry, nextinode: nat, fs: Fs, i: nat, n: nat, content: seq<byte>, k: nat, off: nat, bytes: seq<byte>)
    requires Mounted(img, g, nextinode, fs, i, {}) && i in Live(fs) && Body(img, g, fs.role, i, n, content)
    requires k < n && off + |bytes| <= 1024 && k * 1024 + off + |bytes| <= |content|
    ensures Ref(img, g, Data(i, k)) < |img|
    ensures var b := Ref(img, g, Data(i, k));
            Mounted(img[b := Splice(img[b], off, bytes)], g, nextinode, fs, i, {})
    ensures var b := Ref(img, g, Data(i, k));
            Body(img[b := Splice(img[b], off, bytes)], g, fs.role, i, n, Splice(content, k * 1024 + off, bytes))
    ensures var b := Ref(img, g, Data(i, k));
            IGet(img[b := Splice(img[b], off, bytes)], g, i, SIZE) == IGet(img, g, i, SIZE) &&
            IGet(img[b := Splice(img[b], off, bytes)], g, i, FTYPE) == IGet(img, g, i, FTYPE)
  {
    hide FilesOk, DirsOk, LinksOk, InodesOk, FreeOk, SuperOk, Confined, Owned, IGet, SameInode, Ref, Splice;
    MountedBounds(img, g, nextinode, fs, i, {});
    assert Data(i, k) in fs.role.Values;
    DataRef(img, g, fs.role, Live(fs), i, k);
    var b := Ref(img, g, Data(i, k));
    var data := Splice(img[b], off, bytes);
    var img' := img[b := data];
    DataWriteOwned(img, g, fs.role, Live(fs), b, data);
    DataWrite(img, g, fs.role, Live(fs), i, k, data);
    MountedConfined(img, img', g, nextinode, fs, i, {}, fs.role, {});
    assert fs.(role := fs.role) == fs;
    InodeInTable(g, i);
    DirSizeKept(img, img', g, i);
    forall p: nat | p < n * 1024
      ensures ByteOf(img', g, i, p) == if p < |content| then Splice(content, k * 1024 + off, bytes)[p] else 0
    {
      BlockByte(img, img', g, i, k, p, off, bytes, content);
    }
  }

  lemma BlockByte(img: Image, img': Image, g: Geometry, i: nat, k: nat, p: nat, off: nat, bytes: seq<byte>, content: seq<byte>)
    requires Ref(img, g, Data(i, k)) < |img| && Ref(img, g, Data(i, p / 1024)) < |img| && off + |bytes| <= 1024
    requires k * 1024 + off + |bytes| <= |content|
    requires img' == img[Ref(img, g, Data(i, k)) := Splice(img[Ref(img, g, Data(i, k))], off, bytes)]
    requires Ref(img', g, Data(i, p / 1024)) == Ref(img, g, Data(i, p / 1024))
    requires p / 1024 != k ==> Ref(img, g, Data(i, p / 1024)) != Ref(img, g, Data(i, k))
    requires ByteOf(img, g, i, p) == if p < |content| then content[p] else 0
    ensures ByteOf(img', g, i, p) == if p < |content| then Splice(content, k * 1024 + off, bytes)[p] else 0
  {
    hide Ref, Splice;
    if p / 1024 == k {
      assert p == k * 1024 + p % 1024;
      assert ByteOf(img', g, i, p) == Splice(img[Ref(img, g, Data(i, k))], off, bytes)[p % 1024];
    } else {
      assert ByteOf(img', g, i, p) == ByteOf(img, g, i, p);
    }
  }

  /** The pointer blocks on the way to a data block are data blocks of the disk. */
  lemma WayIn(img: Image, g: Geometry, role: Roles, live: set<nat>, i: nat, k: nat)
    requires Owned(img, g, role, live) && Data(i, k) in role.Values
    ensures k < MAXFILEBLKS && i in live && i < g.ninodes && g.firstdata <= Ref(img, g, Data(i, k)) < g.nblocks
    ensures k >= 10 ==> g.firstdata <= SlotBlock(img, g, Data(i, k)) < g.nblocks
    ensures k >= 266 ==> g.firstdata <= IGet(img, g, i, INDIRECT2) < g.nblocks
  {
    hide SlotBlock, Ref, IGet;
    var b :| b in role && role[b] == Data(i, k);
    assert Anchored(role, live, role[b]) && Ref(img, g, role[b]) == b;
    if k >= 10 {
      SlotHome(img, g, role, live, Data(i, k));
      if k >= 266 {
        AnchoredParent(role, live, img, g, Data(i, k));
        SlotHome(img, g, role, live, Ind2Ind(i, (k - 266) / 256));
        SecondLevel(img, g, i, (k - 266) / 256);
      }
    }
  }

  lemma SecondLevel(img: Image, g: Geometry, i: nat, j: nat)
    ensures SlotBlock(img, g, Ind2Ind(i, j)) == IGet(img, g, i, INDIRECT2)
  {
  }

  /** Part of one data block is part of the file. */
  lemma ChunkOf(img: Image, g: Geometry, role: Roles, i: nat, n: nat, content: seq<byte>, p: nat, m: nat)
    requires Body(img, g, role, i, n, content) && p % 1024 + m <= 1024 && p + m <= |content| && 0 < m
    requires Ref(img, g, Data(i, p / 1024)) < |img|
    ensures img[Ref(img, g, Data(i, p / 1024))][p % 1024..p % 1024 + m] == content[p..p + m]
  {
    hide Ref;
    var b := Ref(img, g, Data(i, p / 1024));
    var part := img[b][p % 1024..p % 1024 + m];
    forall x: nat | x < m
      ensures part[x] == content[p + x]
    {
      assert (p + x) / 1024 == p / 1024 && (p + x) % 1024 == p % 1024 + x;
      assert ByteOf(img, g, i, p + x) == img[b][p % 1024 + x];
    }
  }

  ghost function FreeBlocks(img: Image): set<nat> {
    set b: nat | b < 8192 && IsFree(img, b)
  }

  /** At least k blocks are free. */
  ghost predicate HasFree(img: Image, k: nat) {
    |FreeBlocks(img)| >= k
  }

  lemma OneFree(img: Image)
    ensures HasFree(img, 1) <==> exists b: nat :: b < 8192 && IsFree(img, b)
  {
    hide IsFree;
    if b: nat :| b < 8192 && IsFree(img, b) {
      assert b in FreeBlocks(img);
    }
    if HasFree(img, 1) {
      var b: nat :| b in FreeBlocks(img);
    }
  }

  /** No block in use has changed. */
  ghost predicate SameUsed(img: Image, img': Image) {
    |img'| == |img| && forall b: nat :: b < |img| && b < 8192 && !IsFree(img, b) ==> img'[b] == img[b]
  }

  lemma WordPutBack(b: Block, w: nat, v: word)
    requires w < 256
    ensures SetWord(SetWord(b, w, v), w, Word(b, w)) == b
  {
    var c := SetWord(SetWord(b, w, v), w, Word(b, w));
    var x := Word(b, w);
    WordBytes(b, w);
    assert c[4 * w] == b[4 * w] && c[4 * w + 1] == b[4 * w + 1] && c[4 * w + 2] == b[4 * w + 2] && c[4 * w + 3] == b[4 * w + 3];
    forall o: nat | o < 1024
      ensures c[o] == b[o]
    {
      if o < 4 * w || 4 * w + 4 <= o {
        assert SetWord(b, w, v)[o] == b[o];
      }
    }
  }

  lemma WordBytes(b: Block, w: nat)
    requires w < 256
    ensures b[4 * w] == Word(b, w) % 256 && b[4 * w + 1] == Word(b, w) / 256 % 256
    ensures b[4 * w + 2] == Word(b, w) / 0x1_0000 % 256 && b[4 * w + 3] == Word(b, w) / 0x100_0000
  {
    FourBytes(b[4 * w], b[4 * w + 1], b[4 * w + 2], b[4 * w + 3]);
  }

  lemma FourBytes(p: byte, q: byte, r: byte, t: byte)
    ensures var x := p + 256 * q + 0x1_0000 * r + 0x100_0000 * t;
            x % 256 == p && x / 256 % 256 == q && x / 0x1_0000 % 256 == r && x / 0x100_0000 == t
  {
    var x := p + 256 * q + 0x1_0000 * r + 0x100_0000 * t;
    var y := q + 256 * r + 0x1_0000 * t;
    assert x == p + 256 * y && x / 256 == y;
    assert y == q + 256 * (r + 256 * t) && y / 256 == r + 256 * t;
    assert x / 0x1_0000 == y / 256;
    assert x / 0x100_0000 == t;
  }

  /** Freeing a block that was just allocated restores the bitmap. */
  lemma AllocateFree(img: Image, img': Image, b: nat)
    requires FREEMAP_BLK < |img| == |img'| && b < 8192 && IsFree(img, b) && img'[FREEMAP_BLK] == Cleared(img, b)[FREEMAP_BLK]
    ensures Marked(img', b)[FREEMAP_BLK] == img[FREEMAP_BLK]
  {
    var w := WordAt(img, FREEMAP_BLK, b / 32);
    ClearExact(w, b % 32, 0);
    ClearThenSet(w, b % 32);
    WordPutBack(img[FREEMAP_BLK], b / 32, ClearBit(w, b % 32));
    assert WordAt(img', FREEMAP_BLK, b / 32) == ClearBit(w, b % 32);
  }

  /** After one block has been taken, there is one less. */
  lemma OneLess(img: Image, img': Image, b: nat, k: nat)
    requires FREEMAP_BLK < |img| == |img'| && b < 8192 && IsFree(img, b) && img'[FREEMAP_BLK] == Cleared(img, b)[FREEMAP_BLK]
    ensures HasFree(img', k) <==> HasFree(img, k + 1)
  {
    hide IsFree, Cleared;
    forall j: nat | j < 8192
      ensures IsFree(img', j) <==> j != b && IsFree(img, j)
    {
      ClearedExact(img, b, j);
      SameBit(img', Cleared(img, b), j);
    }
    assert FreeBlocks(img') == FreeBlocks(img) - {b} && b in FreeBlocks(img);
  }

  lemma SameBit(img: Image, img': Image, j: nat)
    requires FREEMAP_BLK < |img| && FREEMAP_BLK < |img'| && img'[FREEMAP_BLK] == img[FREEMAP_BLK]
    ensures IsFree(img', j) == IsFree(img, j)
  {
  }

  /** A block that was allocated, cleared and freed again leaves no trace in the blocks in use. */
  lemma TakenAndGivenBack(img: Image, img': Image, b: nat)
    requires FREEMAP_BLK < |img| && FREEMAP_BLK < b < |img| && b < 8192 && IsFree(img, b)
    requires img' == Marked(Cleared(img, b)[b := ZERO], b)
    ensures SameUsed(img, img') && img'[FREEMAP_BLK] == img[FREEMAP_BLK]
  {
    hide IsFree, Cleared, Marked;
    var mid := Cleared(img, b)[b := ZERO];
    ClearedExact(img, b, b);
    MarkedExact(mid, b, b);
    AllocateFree(img, mid, b);
  }

  lemma SameHasFree(img: Image, img': Image, k: nat)
    requires FREEMAP_BLK < |img| == |img'| && img'[FREEMAP_BLK] == img[FREEMAP_BLK]
    ensures HasFree(img', k) == HasFree(img, k)
  {
    hide IsFree;
    forall j: nat | j < 8192
      ensures IsFree(img', j) == IsFree(img, j)
    {
      SameBit(img, img', j);
    }
    assert FreeBlocks(img') == FreeBlocks(img);
  }

  lemma SameUsedSelf(img: Image)
    ensures SameUsed(img, img)
  {
    hide IsFree;
  }

  /** A new empty block at the end of a file changes none of its bytes. */
  lemma BodyGrownZero(img: Image, img': Image, g: Geometry, role: Roles, role': Roles, i: nat, n: nat, b: nat, content: seq<byte>)
    requires Grown(img, img', g, role, role', i, n, b) && Body(img, g, role, i, n, content) && img[b] == ZERO
    ensures Body(img', g, role', i, n + 1, content)
  {
    hide Ref, Confined;
    forall p: nat | p < (n + 1) * 1024
      ensures ByteOf(img', g, i, p) == if p < |content| then content[p] else 0
    {
      if p / 1024 < n {
        assert Data(i, p / 1024) in role.Values;
        assert ByteOf(img', g, i, p) == ByteOf(img, g, i, p);
      } else {
        assert p / 1024 == n;
        assert ByteOf(img', g, i, p) == img[b][p % 1024];
      }
    }
  }

  /** What is said about the open inode stays. */
  lemma OpenKept(img: Image, img': Image, g: Geometry, role: Roles, i: nat, n: nat, content: seq<byte>)
    requires SameData(img, img', g, role, i) && Body(img, g, role, i, n, content)
    ensures Body(img', g, role, i, n, content)
    ensures IGet(img', g, i, SIZE) == IGet(img, g, i, SIZE) && IGet(img', g, i, FTYPE) == IGet(img, g, i, FTYPE)
  {
    hide SameData, Body, IGet, SameDataBlocks;
    BodyHas(img, g, role, i, n, content);
    SameAttributes(img, img', g, role, i);
    BlocksOfSame(img, img', g, role, i);
    BodyKept(img, img', g, role, role, i, n, content);
  }

  lemma BlocksOfSame(img: Image, img': Image, g: Geometry, role: Roles, i: nat)
    requires SameData(img, img', g, role, i)
    ensures SameDataBlocks(img, img', g, role, i)
  {
  }

  lemma RebuiltKeeps(img: Image, img': Image, g: Geometry, role: Roles, role': Roles, i: nat, n: nat, content: seq<byte>)
    requires Rebuilt(img, img', g, role, role', i) && Body(img, g, role, i, n, content)
    ensures Body(img', g, role', i, n, content)
    ensures IGet(img', g, i, SIZE) == IGet(img, g, i, SIZE) && IGet(img', g, i, FTYPE) == IGet(img, g, i, FTYPE)
  {
    RebuiltHas(img, img', g, role, role', i, n);
    hide SameData, Body, IGet, SameDataBlocks, HasBlocks;
    SameAttributes(img, img', g, role, i);
    BlocksOfSame(img, img', g, role, i);
    BodyKept(img, img', g, role, role', i, n, content);
  }

  lemma GrownKeeps(img: Image, img': Image, g: Geometry, role: Roles, role': Roles, i: nat, n: nat, b: nat)
    requires Grown(img, img', g, role, role', i, n, b)
    ensures IGet(img', g, i, SIZE) == IGet(img, g, i, SIZE) && IGet(img', g, i, FTYPE) == IGet(img, g, i, FTYPE)
  {
    hide Confined, HasBlocks, Ref;
    SameAttributes(img, img', g, role, i);
  }

  /** A pointer block under the inode is there exactly if the pointer to it is not zero. */
  lemma IndirectExact(img: Image, g: Geometry, role: Roles, live: set<nat>, i: nat, deep: bool)
    requires Owned(img, g, role, live) && i in live
    ensures var p, r := IGet(img, g, i, if deep then INDIRECT2 else INDIRECT), if deep then Ind2(i) else Ind(i);
            (p == 0 <==> r !in role.Values) && p == Ref(img, g, r) && (p != 0 ==> g.firstdata <= p < g.nblocks) && Anchored(role, live, r)
  {
    RefExact(img, g, role, live, if deep then Ind2(i) else Ind(i));
    hide Word;
  }

  /** So is one under the doubly indirect block. */
  lemma DeepExact(img: Image, g: Geometry, role: Roles, live: set<nat>, i: nat, j: nat)
    requires Owned(img, g, role, live) && i in live && Ind2(i) in role.Values && j < 256
    ensures g.firstdata <= IGet(img, g, i, INDIRECT2) < g.nblocks
    ensures var p := WordAt(img, IGet(img, g, i, INDIRECT2), j);
            (p == 0 <==> Ind2Ind(i, j) !in role.Values) && p == Ref(img, g, Ind2Ind(i, j)) && (p != 0 ==> g.firstdata <= p < g.nblocks)
  {
    RefExact(img, g, role, live, Ind2(i));
    RefExact(img, g, role, live, Ind2Ind(i, j));
    hide Word;
  }
}
