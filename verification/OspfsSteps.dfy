/** The changes that ospfsformat makes to an image, one at a time, and what each of them does
    to the state of the whole image. */
module OspfsSteps {
  import opened OspfsLayout
  import opened OspfsContents
  import opened OspfsFs

  // ---------------------------------------------------------------- closing an inode

  lemma FsCloseFile(img: Image, g: Geometry, nextb: nat, nextinode: nat, fs: Fs, x: nat, pending: set<nat>, content: seq<byte>)
    requires FsCore(img, g, nextb, nextinode, fs, x, pending) && x in fs.files
    requires FileOk(img, g, fs.role, x, content)
    ensures FsCore(img, g, nextb, nextinode, fs.(files := fs.files[x := content]), -1, pending)
  {
    var fs' := fs.(files := fs.files[x := content]);
    assert fs'.files.Keys == fs.files.Keys;
    assert Live(fs') == Live(fs);
    ClosedFiles(img, g, fs, x, content);
    ClosedOthers(img, g, nextinode, fs, fs', x);
    hide Owned, FilesOk, DirsOk, LinksOk, InodesOk, BlankInode, LowOk, FileOk;
  }

  lemma ClosedFiles(img: Image, g: Geometry, fs: Fs, x: nat, content: seq<byte>)
    requires FilesOk(img, g, fs, x) && FileOk(img, g, fs.role, x, content)
    ensures FilesOk(img, g, fs.(files := fs.files[x := content]), -1)
  {
    hide FileOk;
  }

  lemma ClosedOthers(img: Image, g: Geometry, nextinode: nat, fs: Fs, fs': Fs, x: nat)
    requires InodesOk(img, g, nextinode, fs) && DirsOk(img, g, fs, x) && LinksOk(img, g, fs, x)
    requires x in fs.files && fs' == fs.(files := fs'.files) && fs'.files.Keys == fs.files.Keys
    ensures InodesOk(img, g, nextinode, fs') && DirsOk(img, g, fs', -1) && LinksOk(img, g, fs', -1)
  {
    hide DirOk, LinkOk, BlankInode, Entries;
  }

  lemma FsCloseDir(img: Image, g: Geometry, nextb: nat, nextinode: nat, fs: Fs, x: nat, pending: set<nat>)
    requires FsCore(img, g, nextb, nextinode, fs, x, pending) && x in fs.dirs
    requires DirOk(img, g, fs.role, x, Entries(fs.log, x))
    ensures FsCore(img, g, nextb, nextinode, fs, -1, pending)
  {
    hide Owned, FileOk, DirOk, LinkOk, BlankInode, LowOk;
  }

  // ---------------------------------------------------------------- a new inode

  lemma BlankWords(img: Image, g: Geometry, i: nat, f: nat)
    requires BlankInode(img, g, i) && f < 16 && InodeBlock(g, i) < |img|
    ensures IGet(img, g, i, f) == 0
  {
    var o := 4 * f;
    var b := img[InodeBlock(g, i)];
    var w := InodeWord(i, f);
    assert 4 * w == i % 16 * 64 + o;
    assert InodeByte(img, g, i, o) == b[4 * w] && InodeByte(img, g, i, o + 1) == b[4 * w + 1];
    assert InodeByte(img, g, i, o + 2) == b[4 * w + 2] && InodeByte(img, g, i, o + 3) == b[4 * w + 3];
  }

  lemma ParentLive(img: Image, g: Geometry, role: Roles, live: set<nat>, r: Role)
    requires Owned(img, g, role, live) && ValidRole(r) && Parent(r) != r && Parent(r) in role.Values
    ensures Anchored(role, live, r)
  {
    var b :| b in role && role[b] == Parent(r);
    assert Anchored(role, live, role[b]);
    hide Ref;
  }

  lemma BlankRef(img: Image, g: Geometry, i: nat, r: Role)
    requires BlankInode(img, g, i) && InodeBlock(g, i) < |img| && ValidRole(r) && r.ino == i && Parent(r) == r
    ensures Ref(img, g, r) == 0
  {
    BlankWords(img, g, i, if r.Data? then DIRECT + r.k else if r.Ind? then INDIRECT else INDIRECT2);
  }

  lemma BlankOwned(img: Image, g: Geometry, role: Roles, live: set<nat>, i: nat)
    requires Owned(img, g, role, live) && i !in live && i < g.ninodes && BlankInode(img, g, i)
    ensures Owned(img, g, role, live + {i})
    ensures HasBlocks(role, i, 0)
  {
    InodeInTable(g, i);
    hide Ref, BlankInode;
    forall b | b in role
      ensures role[b].ino != i && Anchored(role, live + {i}, role[b])
    {
      assert Anchored(role, live, role[b]);
    }
    forall r | Anchored(role, live + {i}, r) && r !in role.Values
      ensures Ref(img, g, r) == 0
    {
      if Parent(r) != r {
        ParentLive(img, g, role, live, r);
      } else if r.ino == i {
        BlankRef(img, g, i, r);
      } else {
        assert Anchored(role, live, r);
      }
    }
  }

  lemma BlankFile(img: Image, g: Geometry, role: Roles, i: nat)
    requires BlankInode(img, g, i) && InodeBlock(g, i) < |img| && HasBlocks(role, i, 0)
    ensures FileOk(img, g, role, i, []) && IGet(img, g, i, NLINK) == 0
  {
    BlankWords(img, g, i, FTYPE);
    BlankWords(img, g, i, SIZE);
    BlankWords(img, g, i, NLINK);
    hide BlankInode, IGet;
  }

  /** An inode that leaves the blank part of the table is an empty regular file. */
  lemma FsNewInode(img: Image, g: Geometry, nextb: nat, nextinode: nat, fs: Fs, open: int, pending: set<nat>)
    requires FsCore(img, g, nextb, nextinode, fs, open, pending) && nextinode < g.ninodes
    ensures FsCore(img, g, nextb, nextinode + 1, fs.(files := fs.files[nextinode := []]), open, pending)
    ensures IGet(img, g, nextinode, NLINK) == 0
  {
    hide FileOk, DirOk, LinkOk, BlankInode, LowOk, IGet, HasBlocks, Ref, SlotBlock, Anchored;
    var i := nextinode;
    var fs' := fs.(files := fs.files[i := []]);
    assert BlankInode(img, g, i);
    InodeInTable(g, i);
    BlankOwned(img, g, fs.role, Live(fs), i);
    assert Live(fs') == Live(fs) + {i};
    BlankFile(img, g, fs.role, i);
    hide Owned;
  }

  // ---------------------------------------------------------------- writing into a data block

  lemma DataRef(img: Image, g: Geometry, role: Roles, live: set<nat>, d: nat, k: nat)
    requires Owned(img, g, role, live) && Data(d, k) in role.Values
    ensures Ref(img, g, Data(d, k)) in role && role[Ref(img, g, Data(d, k))] == Data(d, k)
    ensures g.firstdata <= Ref(img, g, Data(d, k)) < |img|
  {
    var b :| b in role && role[b] == Data(d, k);
    hide Ref;
  }

  ghost predicate SameTable(img: Image, img': Image, g: Geometry) {
    forall i: nat :: i < g.ninodes ==> SameInode(img, img', g, i)
  }

  lemma DataWriteOwned(img: Image, g: Geometry, role: Roles, live: set<nat>, b: nat, content: Block)
    requires Owned(img, g, role, live) && b in role && role[b].Data?
    ensures Owned(img[b := content], g, role, live)
    ensures SameTable(img, img[b := content], g)
    ensures forall r :: Anchored(role, live, r) ==> Ref(img[b := content], g, r) == Ref(img, g, r)
  {
    var img' := img[b := content];
    forall i: nat | i < g.ninodes
      ensures SameInode(img, img', g, i)
    {
      InodeInTable(g, i);
    }
    forall i | i in live
      ensures SamePointers(img, img', g, role, i)
    {
      InodeInTable(g, i);
      hide Word;
    }
    hide Ref, SlotBlock, SamePointers, SameInode;
    UntouchedPointers(img, img', g, role, live);
    forall r | Anchored(role, live, r)
      ensures Ref(img', g, r) == Ref(img, g, r)
    {
      RefFrame(img, img', g, role, live, r);
    }
  }

  /** Overwriting a data block that inode d owns. */
  lemma DataWrite(img: Image, g: Geometry, role: Roles, live: set<nat>, d: nat, k: nat, content: Block)
    requires Owned(img, g, role, live) && Data(d, k) in role.Values && d in live
    requires Ref(img, g, Data(d, k)) < |img|
    ensures Owned(img[Ref(img, g, Data(d, k)) := content], g, role, live)
    ensures Confined(img, img[Ref(img, g, Data(d, k)) := content], g, role, role, d)
    ensures SameInode(img, img[Ref(img, g, Data(d, k)) := content], g, d)
    ensures forall q: nat :: Data(d, q) in role.Values ==>
              Ref(img[Ref(img, g, Data(d, k)) := content], g, Data(d, q)) == Ref(img, g, Data(d, q)) < |img| &&
              (q != k ==> Ref(img, g, Data(d, q)) != Ref(img, g, Data(d, k)))
  {
    DataRef(img, g, role, live, d, k);
    var b := Ref(img, g, Data(d, k));
    assert d < g.ninodes;
    DataWriteOwned(img, g, role, live, b, content);
    assert Confined(img, img[b := content], g, role, role, d) by {
      hide Ref, SameInode;
    }
    forall q: nat | Data(d, q) in role.Values
      ensures Ref(img[b := content], g, Data(d, q)) == Ref(img, g, Data(d, q)) < |img|
      ensures q != k ==> Ref(img, g, Data(d, q)) != b
    {
      hide Ref;
      DataRef(img, g, role, live, d, q);
      assert Anchored(role, live, Data(d, q));
    }
    hide Ref, Owned, SameInode, Confined;
  }

  // ---------------------------------------------------------------- directory entries

  /** strcpy of a name into entry q of a directory block. */
  function WithName(b: Block, q: nat, name: seq<byte>): Block
    requires q < 8 && |name| <= MAXNAMELEN
  {
    var o := q * 128 + 4;
    b[..o] + name + [0] + b[o + |name| + 1..]
  }

  lemma WithNameBytes(b: Block, q: nat, name: seq<byte>)
    requires q < 8 && |name| <= MAXNAMELEN
    ensures forall x :: 0 <= x < 1024 && (x < q * 128 + 4 || q * 128 + 4 + |name| < x) ==> WithName(b, q, name)[x] == b[x]
    ensures NameAt(WithName(b, q, name), q, name)
  {
  }

  lemma SameWord(b: Block, r: Block, w: nat)
    requires w < 256
    requires forall x :: 4 * w <= x < 4 * w + 4 ==> r[x] == b[x]
    ensures Word(r, w) == Word(b, w)
  {
    assert r[4 * w] == b[4 * w] && r[4 * w + 1] == b[4 * w + 1] && r[4 * w + 2] == b[4 * w + 2] && r[4 * w + 3] == b[4 * w + 3];
  }

  lemma WithNameEffect(b: Block, q: nat, name: seq<byte>)
    requires q < 8 && |name| <= MAXNAMELEN
    ensures NameAt(WithName(b, q, name), q, name)
    ensures forall p: nat :: p < 8 ==> Word(WithName(b, q, name), p * 32) == Word(b, p * 32)
    ensures forall p: nat, other: seq<byte> :: p < 8 && p != q && NameAt(b, p, other) ==> NameAt(WithName(b, q, name), p, other)
  {
    hide WithName, Word;
    WithNameBytes(b, q, name);
    forall p: nat | p < 8
      ensures Word(WithName(b, q, name), p * 32) == Word(b, p * 32)
    {
      SameWord(b, WithName(b, q, name), p * 32);
    }
  }

  lemma SetInoEffect(b: Block, q: nat, v: word)
    requires q < 8
    ensures forall p: nat :: p < 8 && p != q ==> Word(SetWord(b, q * 32, v), p * 32) == Word(b, p * 32)
    ensures forall p: nat, name: seq<byte> :: p < 8 && NameAt(b, p, name) ==> NameAt(SetWord(b, q * 32, v), p, name)
  {
    var r := SetWord(b, q * 32, v);
    assert forall o: nat :: o < 1024 && (o < q * 128 || q * 128 + 4 <= o) ==> r[o] == b[o];
    hide SetWord, Word;
  }

  /** The place of entry p: a data block of the directory. */
  lemma EntryHome(img: Image, g: Geometry, role: Roles, live: set<nat>, d: nat, n: nat, ents: seq<Entry>, p: nat)
    requires Owned(img, g, role, live) && DirBody(img, g, role, d, n, ents) && p < n * 8
    ensures Data(d, p / 8) in role.Values && Ref(img, g, Data(d, p / 8)) in role
    ensures role[Ref(img, g, Data(d, p / 8))] == Data(d, p / 8) && Ref(img, g, Data(d, p / 8)) < |img|
    ensures EntryBlock(img, g, d, p) == img[Ref(img, g, Data(d, p / 8))]
  {
    hide Ref;
    assert Data(d, p / 8) in role.Values;
    var b :| b in role && role[b] == Data(d, p / 8);
    assert Ref(img, g, Data(d, p / 8)) == b;
  }

  lemma EntriesAfter(img: Image, g: Geometry, role: Roles, live: set<nat>, d: nat, n: nat, ents: seq<Entry>, k: nat, content: Block, p: nat)
    requires Owned(img, g, role, live) && DirBody(img, g, role, d, n, ents) && k < n && d in live && p < n * 8
    requires Ref(img, g, Data(d, k)) < |img|
    ensures EntryBlock(img[Ref(img, g, Data(d, k)) := content], g, d, p) ==
            if p / 8 == k then content else EntryBlock(img, g, d, p)
  {
    assert Data(d, k) in role.Values && Data(d, p / 8) in role.Values;
    DataWrite(img, g, role, live, d, k, content);
    hide Owned, Ref, Confined, SameInode;
  }

  /** Writing the name of the first empty entry. */
  lemma DirNamed(img: Image, g: Geometry, role: Roles, live: set<nat>, d: nat, n: nat, ents: seq<Entry>, name: seq<byte>)
    requires Owned(img, g, role, live) && DirBody(img, g, role, d, n, ents) && d in live
    requires |ents| < n * 8 && |name| <= MAXNAMELEN && Ref(img, g, Data(d, |ents| / 8)) < |img|
    ensures var b := Ref(img, g, Data(d, |ents| / 8));
            DirBody(img[b := WithName(img[b], |ents| % 8, name)], g, role, d, n, ents) &&
            NameAt(EntryBlock(img[b := WithName(img[b], |ents| % 8, name)], g, d, |ents|), |ents| % 8, name)
  {
    var k, q := |ents| / 8, |ents| % 8;
    var b := Ref(img, g, Data(d, k));
    var content := WithName(img[b], q, name);
    var img' := img[b := content];
    WithNameEffect(img[b], q, name);
    forall p: nat | p < n * 8
      ensures EntryBlock(img', g, d, p) == if p / 8 == k then content else EntryBlock(img, g, d, p)
      ensures p / 8 == k ==> EntryBlock(img, g, d, p) == img[b]
    {
      EntriesAfter(img, g, role, live, d, n, ents, k, content, p);
      EntryHome(img, g, role, live, d, n, ents, p);
    }
    hide Owned, Ref, WithName, EntryBlock, HasBlocks, Word;
    forall p | 0 <= p < |ents|
      ensures EntryOk(img', g, d, p, ents[p])
    {
      assert EntryOk(img, g, d, p, ents[p]);
    }
    forall p | |ents| <= p < n * 8
      ensures EntryIno(img', g, d, p) == 0
    {
      assert EntryIno(img, g, d, p) == 0;
    }
  }

  /** Writing the inode number of the first empty entry. */
  lemma DirEntered(img: Image, g: Geometry, role: Roles, live: set<nat>, d: nat, n: nat, ents: seq<Entry>, e: Entry)
    requires Owned(img, g, role, live) && DirBody(img, g, role, d, n, ents) && d in live
    requires |ents| < n * 8 && ValidName(e.name) && 0 < e.ino < 0x1_0000_0000 && Ref(img, g, Data(d, |ents| / 8)) < |img|
    requires NameAt(EntryBlock(img, g, d, |ents|), |ents| % 8, e.name)
    ensures var b := Ref(img, g, Data(d, |ents| / 8));
            DirBody(img[b := SetWord(img[b], |ents| % 8 * 32, e.ino)], g, role, d, n, ents + [e])
  {
    var k, q := |ents| / 8, |ents| % 8;
    var b := Ref(img, g, Data(d, k));
    var content := SetWord(img[b], q * 32, e.ino);
    var img' := img[b := content];
    SetInoEffect(img[b], q, e.ino);
    forall p: nat | p < n * 8
      ensures EntryBlock(img', g, d, p) == if p / 8 == k then content else EntryBlock(img, g, d, p)
      ensures p / 8 == k ==> EntryBlock(img, g, d, p) == img[b]
    {
      EntriesAfter(img, g, role, live, d, n, ents, k, content, p);
      EntryHome(img, g, role, live, d, n, ents, p);
    }
    hide Owned, Ref, SetWord, EntryBlock, HasBlocks, Word;
    forall p | 0 <= p < |ents + [e]|
      ensures EntryOk(img', g, d, p, (ents + [e])[p])
    {
      if p < |ents| {
        assert EntryOk(img, g, d, p, ents[p]);
      }
    }
    forall p | |ents + [e]| <= p < n * 8
      ensures EntryIno(img', g, d, p) == 0
    {
      assert EntryIno(img, g, d, p) == 0;
    }
  }

  /** The directory that is about to change is taken out of the invariant. */
  lemma FsDir(img: Image, g: Geometry, nextb: nat, nextinode: nat, fs: Fs, d: nat, pending: set<nat>)
    requires FsCore(img, g, nextb, nextinode, fs, -1, pending) && d in fs.dirs
    ensures FsCore(img, g, nextb, nextinode, fs, d, pending) && DirOk(img, g, fs.role, d, Entries(fs.log, d))
    ensures d < nextinode <= g.ninodes && d in Live(fs) && ValidGeometry(g) && |img| == g.nblocks
  {
    FsCoreBounds(img, g, nextb, nextinode, fs, -1, pending);
    hide Owned, FileOk, DirOk, LinkOk, BlankInode, LowOk;
  }

  lemma FsFile(img: Image, g: Geometry, nextb: nat, nextinode: nat, fs: Fs, i: nat, pending: set<nat>)
    requires FsCore(img, g, nextb, nextinode, fs, -1, pending) && i in fs.files
    ensures FsCore(img, g, nextb, nextinode, fs, i, pending) && FileOk(img, g, fs.role, i, fs.files[i])
    ensures i < nextinode <= g.ninodes && i in Live(fs) && ValidGeometry(g) && |img| == g.nblocks
  {
    FsCoreBounds(img, g, nextb, nextinode, fs, -1, pending);
    hide Owned, FileOk, DirOk, LinkOk, BlankInode, LowOk;
  }

  ghost predicate HasRoom(img: Image, g: Geometry, fs: Fs, d: nat) {
    |Entries(fs.log, d)| < IGet(img, g, d, SIZE) / 1024 * 8
  }

  /** The block that takes the next entry of directory d. */
  ghost function NextEntryBlock(img: Image, g: Geometry, fs: Fs, d: nat): nat {
    Ref(img, g, Data(d, |Entries(fs.log, d)| / 8))
  }

  ghost function NextEntryIndex(fs: Fs, d: nat): nat {
    |Entries(fs.log, d)| % 8
  }

  lemma RoomHome(img: Image, g: Geometry, nextb: nat, nextinode: nat, fs: Fs, d: nat, pending: set<nat>)
    requires FsCore(img, g, nextb, nextinode, fs, -1, pending) && d in fs.dirs && HasRoom(img, g, fs, d)
    ensures NextEntryBlock(img, g, fs, d) in fs.role && g.firstdata <= NextEntryBlock(img, g, fs, d) < |img|
    ensures NextEntryBlock(img, g, fs, d) < nextb && NextEntryBlock(img, g, fs, d) !in pending
    ensures fs.role[NextEntryBlock(img, g, fs, d)] == Data(d, |Entries(fs.log, d)| / 8)
  {
    hide FilesOk, LinksOk, InodesOk, LowOk, Ref, IGet;
    DataRef(img, g, fs.role, Live(fs), d, |Entries(fs.log, d)| / 8);
  }

  lemma DirSizeKept(img: Image, img': Image, g: Geometry, d: nat)
    requires |img'| == |img| && InodeBlock(g, d) < |img| && SameInode(img, img', g, d)
    ensures IGet(img', g, d, FTYPE) == IGet(img, g, d, FTYPE) && IGet(img', g, d, SIZE) == IGet(img, g, d, SIZE)
  {
    SameInodeWords(img, img', g, d, FTYPE);
    SameInodeWords(img, img', g, d, SIZE);
  }

  lemma SameBlocksOk(g: Geometry, nextb: nat, fs: Fs, log: seq<Named>, pending: set<nat>)
    requires BlocksOk(g, nextb, fs, pending)
    ensures BlocksOk(g, nextb, fs.(role := fs.role), pending) && fs.(role := fs.role) == fs
  {
  }

  /** The name of the next entry of directory d is written. */
  lemma FsNamed(img: Image, g: Geometry, nextb: nat, nextinode: nat, fs: Fs, d: nat, pending: set<nat>, name: seq<byte>, b: nat)
    requires FsCore(img, g, nextb, nextinode, fs, -1, pending) && d in fs.dirs && HasRoom(img, g, fs, d)
    requires |name| <= MAXNAMELEN && b == NextEntryBlock(img, g, fs, d) && b < |img|
    ensures FsCore(img[b := WithName(img[b], NextEntryIndex(fs, d), name)], g, nextb, nextinode, fs, -1, pending)
    ensures SameTable(img, img[b := WithName(img[b], NextEntryIndex(fs, d), name)], g)
    ensures NextEntryBlock(img[b := WithName(img[b], NextEntryIndex(fs, d), name)], g, fs, d) == b
    ensures NameAt(WithName(img[b], NextEntryIndex(fs, d), name), NextEntryIndex(fs, d), name)
  {
    hide FsCore, Owned, Ref, Confined, WithName, DirBody, BlocksOk, SameInode, SameTable, IGet;
    var ents, k := Entries(fs.log, d), |Entries(fs.log, d)| / 8;
    var n := IGet(img, g, d, SIZE) / 1024;
    var img' := img[b := WithName(img[b], |ents| % 8, name)];
    FsDir(img, g, nextb, nextinode, fs, d, pending);
    FsCoreBounds(img, g, nextb, nextinode, fs, d, pending);
    RoomHome(img, g, nextb, nextinode, fs, d, pending);
    InodeInTable(g, d);
    DataWriteOwned(img, g, fs.role, Live(fs), b, WithName(img[b], |ents| % 8, name));
    DataWrite(img, g, fs.role, Live(fs), d, k, WithName(img[b], |ents| % 8, name));
    DirNamed(img, g, fs.role, Live(fs), d, n, ents, name);
    WithNameBytes(img[b], |ents| % 8, name);
    SameBlocksOk(g, nextb, fs, fs.log, pending);
    FsConfined(img, img', g, nextb, nextinode, fs, d, pending, fs.role, nextb, pending);
    DirSizeKept(img, img', g, d);
    FsCloseDir(img', g, nextb, nextinode, fs, d, pending);
  }

  lemma LogNext(img: Image, g: Geometry, nextb: nat, nextinode: nat, fs: Fs, d: nat, pending: set<nat>, e: Entry)
    requires FsCore(img, g, nextb, nextinode, fs, d, pending) && d in fs.dirs && 0 < e.ino < nextinode
    ensures FsCore(img, g, nextb, nextinode, fs.(log := fs.log + [Named(d, e)]), d, pending)
  {
    hide Owned, FilesOk, DirsOk, LinksOk, InodesOk, LowOk;
    var fs' := fs.(log := fs.log + [Named(d, e)]);
    assert Live(fs') == Live(fs);
    assert FilesOk(img, g, fs', d) && LinksOk(img, g, fs', d) by { LogFiles(img, g, fs, fs', d); }
    LogDirs(img, g, fs, d, e);
    LogInodes(img, g, nextinode, fs, d, e);
  }

  lemma LogFiles(img: Image, g: Geometry, fs: Fs, fs': Fs, d: nat)
    requires FilesOk(img, g, fs, d) && LinksOk(img, g, fs, d) && fs' == fs.(log := fs'.log)
    ensures FilesOk(img, g, fs', d) && LinksOk(img, g, fs', d)
  {
    hide FileOk, LinkOk;
  }

  lemma LogDirs(img: Image, g: Geometry, fs: Fs, d: nat, e: Entry)
    requires DirsOk(img, g, fs, d)
    ensures DirsOk(img, g, fs.(log := fs.log + [Named(d, e)]), d)
  {
    hide DirOk, Entries;
    forall x | x in fs.dirs && x != d
      ensures Entries(fs.log + [Named(d, e)], x) == Entries(fs.log, x)
    {
      EntriesNext(fs.log, Named(d, e), x);
    }
  }

  lemma LogInodes(img: Image, g: Geometry, nextinode: nat, fs: Fs, d: nat, e: Entry)
    requires InodesOk(img, g, nextinode, fs) && d in fs.dirs && 0 < e.ino < nextinode
    ensures InodesOk(img, g, nextinode, fs.(log := fs.log + [Named(d, e)]))
  {
    hide BlankInode;
  }

  /** The inode number of the next entry of directory d is written. */
  lemma FsEntered(img: Image, g: Geometry, nextb: nat, nextinode: nat, fs: Fs, d: nat, pending: set<nat>, e: Entry, b: nat)
    requires FsCore(img, g, nextb, nextinode, fs, -1, pending) && d in fs.dirs && HasRoom(img, g, fs, d)
    requires ValidName(e.name) && 0 < e.ino < nextinode && e.ino < 0x1_0000_0000
    requires b == NextEntryBlock(img, g, fs, d) && b < |img| && NameAt(img[b], NextEntryIndex(fs, d), e.name)
    ensures FsCore(img[b := SetWord(img[b], NextEntryIndex(fs, d) * 32, e.ino)], g, nextb, nextinode,
                   fs.(log := fs.log + [Named(d, e)]), -1, pending)
    ensures SameTable(img, img[b := SetWord(img[b], NextEntryIndex(fs, d) * 32, e.ino)], g)
  {
    hide FsCore, Owned, Ref, Confined, SetWord, BlocksOk, SameInode, SameTable, IGet, EntryOk, EntryIno, HasBlocks;
    var ents, k := Entries(fs.log, d), |Entries(fs.log, d)| / 8;
    var n := IGet(img, g, d, SIZE) / 1024;
    var img' := img[b := SetWord(img[b], |ents| % 8 * 32, e.ino)];
    FsDir(img, g, nextb, nextinode, fs, d, pending);
    FsCoreBounds(img, g, nextb, nextinode, fs, d, pending);
    RoomHome(img, g, nextb, nextinode, fs, d, pending);
    InodeInTable(g, d);
    DataWriteOwned(img, g, fs.role, Live(fs), b, SetWord(img[b], |ents| % 8 * 32, e.ino));
    DataWrite(img, g, fs.role, Live(fs), d, k, SetWord(img[b], |ents| % 8 * 32, e.ino));
    DirEntered(img, g, fs.role, Live(fs), d, n, ents, e);
    SameBlocksOk(g, nextb, fs, fs.log, pending);
    FsConfined(img, img', g, nextb, nextinode, fs, d, pending, fs.role, nextb, pending);
    DirSizeKept(img, img', g, d);
    EntriesNext(fs.log, Named(d, e), d);
    LogNext(img', g, nextb, nextinode, fs, d, pending, e);
    FsCloseDir(img', g, nextb, nextinode, fs.(log := fs.log + [Named(d, e)]), d, pending);
  }

  // ---------------------------------------------------------------- attributes

  /** No link count but that of inode x has changed. */
  ghost predicate NlinksKept(img: Image, img': Image, g: Geometry, x: int) {
    forall j: nat :: j < g.ninodes && j != x ==> IGet(img', g, j, NLINK) == IGet(img, g, j, NLINK)
  }

  lemma ConfinedNlinks(img: Image, img': Image, g: Geometry, role: Roles, role': Roles, x: nat)
    requires ValidGeometry(g) && |img| == g.nblocks && Confined(img, img', g, role, role', x)
    ensures NlinksKept(img, img', g, x)
  {
    forall j: nat | j < g.ninodes && j != x
      ensures IGet(img', g, j, NLINK) == IGet(img, g, j, NLINK)
    {
      InodeInTable(g, j);
      assert SameInode(img, img', g, j);
      SameInodeWords(img, img', g, j, NLINK);
    }
  }

  lemma TableNlinks(img: Image, img': Image, g: Geometry, x: int)
    requires ValidGeometry(g) && |img| == |img'| == g.nblocks && SameTable(img, img', g)
    ensures NlinksKept(img, img', g, x)
  {
    forall j: nat | j < g.ninodes && j != x
      ensures IGet(img', g, j, NLINK) == IGet(img, g, j, NLINK)
    {
      InodeInTable(g, j);
      assert SameInode(img, img', g, j);
      SameInodeWords(img, img', g, j, NLINK);
    }
  }

  lemma AttributeStep(img: Image, g: Geometry, nextb: nat, nextinode: nat, fs: Fs, x: nat, pending: set<nat>, f: nat, v: word)
    requires FsCore(img, g, nextb, nextinode, fs, x, pending) && x < nextinode && f < 4
    ensures FsCore(ISet(img, g, x, f, v), g, nextb, nextinode, fs, x, pending)
    ensures SameDataBlocks(img, ISet(img, g, x, f, v), g, fs.role, x)
    ensures NlinksKept(img, ISet(img, g, x, f, v), g, x)
    ensures forall h :: 0 <= h < 16 ==> IGet(ISet(img, g, x, f, v), g, x, h) == if h == f then v else IGet(img, g, x, h)
  {
    hide FsCore, Owned, BlocksOk, Confined, SameDataBlocks, NlinksKept, ISet;
    var img' := ISet(img, g, x, f, v);
    FsCoreBounds(img, g, nextb, nextinode, fs, x, pending);
    AttributeWrite(img, g, fs.role, Live(fs), x, f, v);
    InodeWrite(img, g, fs.role, Live(fs), x, f, v);
    ConfinedNlinks(img, img', g, fs.role, fs.role, x);
    SameBlocksOk(g, nextb, fs, fs.log, pending);
    FsConfined(img, img', g, nextb, nextinode, fs, x, pending, fs.role, nextb, pending);
  }

  /** Setting the link count or the mode of a file or directory. */
  lemma FsSetAttribute(img: Image, g: Geometry, nextb: nat, nextinode: nat, fs: Fs, x: nat, pending: set<nat>, f: nat, v: word)
    requires FsCore(img, g, nextb, nextinode, fs, -1, pending) && x in Live(fs) && f in {NLINK, MODE}
    ensures FsCore(ISet(img, g, x, f, v), g, nextb, nextinode, fs, -1, pending)
    ensures NlinksKept(img, ISet(img, g, x, f, v), g, x)
    ensures IGet(ISet(img, g, x, f, v), g, x, f) == v
    ensures f == MODE ==> IGet(ISet(img, g, x, f, v), g, x, NLINK) == IGet(img, g, x, NLINK)
  {
    hide FsCore, Owned, Body, DirBody, SameDataBlocks, NlinksKept, ISet, IGet;
    var img' := ISet(img, g, x, f, v);
    if x in fs.files {
      FsFile(img, g, nextb, nextinode, fs, x, pending);
      AttributeStep(img, g, nextb, nextinode, fs, x, pending, f, v);
      BodyHas(img, g, fs.role, x, Nblocks(|fs.files[x]|), fs.files[x]);
      BodyKept(img, img', g, fs.role, fs.role, x, Nblocks(|fs.files[x]|), fs.files[x]);
      FsCloseFile(img', g, nextb, nextinode, fs, x, pending, fs.files[x]);
      assert fs.files[x := fs.files[x]] == fs.files;
    } else {
      var ents := Entries(fs.log, x);
      FsDir(img, g, nextb, nextinode, fs, x, pending);
      AttributeStep(img, g, nextb, nextinode, fs, x, pending, f, v);
      DirHas(img, g, fs.role, x, IGet(img, g, x, SIZE) / 1024, ents);
      DirBodyKept(img, img', g, fs.role, fs.role, x, IGet(img, g, x, SIZE) / 1024, ents);
      FsCloseDir(img', g, nextb, nextinode, fs, x, pending);
    }
  }

  lemma BodyHas(img: Image, g: Geometry, role: Roles, i: nat, n: nat, content: seq<byte>)
    requires Body(img, g, role, i, n, content)
    ensures HasBlocks(role, i, n)
  {
  }

  lemma DirHas(img: Image, g: Geometry, role: Roles, d: nat, n: nat, ents: seq<Entry>)
    requires DirBody(img, g, role, d, n, ents)
    ensures HasBlocks(role, d, n) && |ents| <= n * 8 <= |ents| + 8
  {
  }

  /** The size of a file whose blocks have all been written. */
  lemma FsSetSize(img: Image, g: Geometry, nextb: nat, nextinode: nat, fs: Fs, i: nat, pending: set<nat>, content: seq<byte>)
    requires FsCore(img, g, nextb, nextinode, fs, i, pending) && i in fs.files && i < nextinode
    requires IGet(img, g, i, FTYPE) == FTYPE_REG && |content| < 0x1_0000_0000
    requires Body(img, g, fs.role, i, Nblocks(|content|), content)
    ensures FsCore(ISet(img, g, i, SIZE, |content|), g, nextb, nextinode, fs.(files := fs.files[i := content]), -1, pending)
    ensures NlinksKept(img, ISet(img, g, i, SIZE, |content|), g, -1)
  {
    hide FsCore, Owned, Body, SameDataBlocks, ISet, IGet;
    var img' := ISet(img, g, i, SIZE, |content|);
    AttributeStep(img, g, nextb, nextinode, fs, i, pending, SIZE, |content|);
    BodyHas(img, g, fs.role, i, Nblocks(|content|), content);
    BodyKept(img, img', g, fs.role, fs.role, i, Nblocks(|content|), content);
    FsCloseFile(img', g, nextb, nextinode, fs, i, pending, content);
  }

  /** A directory that has gained an empty block, once its size says so. */
  lemma FsDirGrown(img: Image, img': Image, g: Geometry, nextb: nat, nextinode: nat, fs: Fs, role: Roles, d: nat, n: nat, b: nat)
    requires FsCore(img', g, nextb, nextinode, fs, d, {}) && d in fs.dirs && d < nextinode
    requires Grown(img, img', g, role, fs.role, d, n, b) && b < |img| && img[b] == ZERO
    requires IGet(img, g, d, FTYPE) == FTYPE_DIR && (n + 1) * 1024 < 0x1_0000_0000
    requires DirBody(img, g, role, d, n, Entries(fs.log, d)) && |Entries(fs.log, d)| == n * 8
    ensures FsCore(ISet(img', g, d, SIZE, (n + 1) * 1024), g, nextb, nextinode, fs, -1, {})
    ensures NlinksKept(img', ISet(img', g, d, SIZE, (n + 1) * 1024), g, -1)
    ensures HasRoom(ISet(img', g, d, SIZE, (n + 1) * 1024), g, fs, d)
    ensures NextEntryBlock(ISet(img', g, d, SIZE, (n + 1) * 1024), g, fs, d) == b && NextEntryIndex(fs, d) == 0
  {
    hide FsCore, Owned, DirBody, ISet, IGet, Ref;
    var ents := Entries(fs.log, d);
    var img2 := ISet(img', g, d, SIZE, (n + 1) * 1024);
    DirGrown(img, img', g, role, fs.role, d, n, b, ents);
    AttributeStep(img', g, nextb, nextinode, fs, d, {}, SIZE, (n + 1) * 1024);
    DirHas(img', g, fs.role, d, n + 1, ents);
    DirBodyKept(img', img2, g, fs.role, fs.role, d, n + 1, ents);
    FsCloseDir(img2, g, nextb, nextinode, fs, d, {});
    assert Data(d, n) in fs.role.Values;
  }

  ghost predicate NoBlocks(role: Roles, x: nat) {
    forall b :: b in role ==> role[b].ino != x
  }

  lemma NewInodeNoBlocks(img: Image, g: Geometry, nextb: nat, nextinode: nat, fs: Fs, open: int, pending: set<nat>)
    requires FsCore(img, g, nextb, nextinode, fs, open, pending)
    ensures NoBlocks(fs.role, nextinode)
  {
    hide FilesOk, DirsOk, LinksOk, LowOk, Ref;
    forall b | b in fs.role
      ensures fs.role[b].ino != nextinode
    {
      assert Anchored(fs.role, Live(fs), fs.role[b]);
    }
  }

  /** An empty file becomes an empty directory. */
  lemma FsMakeDir(img: Image, g: Geometry, nextb: nat, nextinode: nat, fs: Fs, x: nat, pending: set<nat>)
    requires FsCore(img, g, nextb, nextinode, fs, -1, pending) && x in fs.files && fs.files[x] == []
    ensures FsCore(ISet(img, g, x, FTYPE, FTYPE_DIR), g, nextb, nextinode,
                   fs.(files := fs.files - {x}, dirs := fs.dirs + {x}), -1, pending)
    ensures NlinksKept(img, ISet(img, g, x, FTYPE, FTYPE_DIR), g, -1)
    ensures Entries(fs.log, x) == []
  {
    hide FsCore, ISet, IGet, DirOk, Entries, SameDataBlocks, Body, NlinksKept;
    var img' := ISet(img, g, x, FTYPE, FTYPE_DIR);
    FsFile(img, g, nextb, nextinode, fs, x, pending);
    BodyHas(img, g, fs.role, x, 0, []);
    AttributeStep(img, g, nextb, nextinode, fs, x, pending, FTYPE, FTYPE_DIR);
    EmptyDir(img', g, fs.role, x);
    FileHasNoEntries(img, g, nextb, nextinode, fs, x, pending);
    FileToDir(img', g, nextb, nextinode, fs, x, pending);
    assert NlinksKept(img, img', g, -1) by { AllNlinks(img, img', g, x); }
  }

  lemma AllNlinks(img: Image, img': Image, g: Geometry, x: nat)
    requires NlinksKept(img, img', g, x) && IGet(img', g, x, NLINK) == IGet(img, g, x, NLINK)
    ensures NlinksKept(img, img', g, -1)
  {
    hide IGet;
  }

  lemma EmptyDir(img: Image, g: Geometry, role: Roles, x: nat)
    requires IGet(img, g, x, FTYPE) == FTYPE_DIR && IGet(img, g, x, SIZE) == 0 && HasBlocks(role, x, 0)
    ensures DirOk(img, g, role, x, [])
  {
    hide IGet, HasBlocks;
  }

  lemma FileHasNoEntries(img: Image, g: Geometry, nextb: nat, nextinode: nat, fs: Fs, x: nat, pending: set<nat>)
    requires FsCore(img, g, nextb, nextinode, fs, -1, pending) && x in fs.files
    ensures Entries(fs.log, x) == []
  {
    hide Owned, FilesOk, DirsOk, LinksOk, LowOk, BlocksOk, BlankInode, Entries;
    NoEntries(fs.log, x);
  }

  lemma FileToDir(img: Image, g: Geometry, nextb: nat, nextinode: nat, fs: Fs, x: nat, pending: set<nat>)
    requires FsCore(img, g, nextb, nextinode, fs, x, pending) && x in fs.files
    requires Entries(fs.log, x) == [] && DirOk(img, g, fs.role, x, [])
    ensures FsCore(img, g, nextb, nextinode, fs.(files := fs.files - {x}, dirs := fs.dirs + {x}), -1, pending)
  {
    hide Owned, FileOk, DirOk, LinkOk, BlankInode, LowOk, Entries;
    var fs' := fs.(files := fs.files - {x}, dirs := fs.dirs + {x});
    assert Live(fs') == Live(fs);
  }

  lemma {:induction false} NoEntries(log: seq<Named>, x: nat)
    requires forall k :: 0 <= k < |log| ==> log[k].dir != x
    ensures Entries(log, x) == []
  {
    if log != [] {
      NoEntries(log[..|log| - 1], x);
    }
  }

  // ---------------------------------------------------------------- symbolic links

  /** Only the 64 bytes of inode x differ. */
  ghost predicate OnlyInode(img: Image, img': Image, g: Geometry, x: nat) {
    && |img'| == |img|
    && (forall b: nat :: b < |img| && b != InodeBlock(g, x) ==> img'[b] == img[b])
    && (InodeBlock(g, x) < |img| ==> forall o: nat :: o < 1024 && (o < x % 16 * 64 || x % 16 * 64 + 64 <= o) ==>
          img'[InodeBlock(g, x)][o] == img[InodeBlock(g, x)][o])
  }

  lemma OnlyInodeConfined(img: Image, img': Image, g: Geometry, role: Roles, live: set<nat>, x: nat)
    requires Owned(img, g, role, live) && x < g.ninodes && x !in live && OnlyInode(img, img', g, x)
    ensures Owned(img', g, role, live) && Confined(img, img', g, role, role, x)
  {
    InodeInTable(g, x);
    forall j: nat | j != x && j < g.ninodes
      ensures SameInode(img, img', g, j)
    {
      InodeInTable(g, j);
      OtherInode(img, img', g, x, j);
    }
    forall i | i in live
      ensures SamePointers(img, img', g, role, i)
    {
      assert SameInode(img, img', g, i);
      SamePointersFrom(img, img', g, role, live, i);
    }
    hide SamePointers, SameInode, Word;
    UntouchedPointers(img, img', g, role, live);
  }

  lemma OtherInode(img: Image, img': Image, g: Geometry, x: nat, j: nat)
    requires OnlyInode(img, img', g, x) && j != x && InodeBlock(g, x) < |img| && InodeBlock(g, j) < |img|
    ensures SameInode(img, img', g, j)
  {
    forall o | 0 <= o < 64
      ensures InodeByte(img', g, j, o) == InodeByte(img, g, j, o)
    {
      if InodeBlock(g, j) == InodeBlock(g, x) {
        assert j % 16 != x % 16;
      }
    }
  }

  lemma WordIsOnlyInode(img: Image, g: Geometry, x: nat, f: nat, v: word)
    requires f < 16 && InodeBlock(g, x) < |img|
    ensures OnlyInode(img, ISet(img, g, x, f, v), g, x)
  {
  }

  /** strcpy of a link target into its inode. */
  function WithTarget(b: Block, x: nat, target: seq<byte>): Block
    requires |target| <= MAXSYMLINKLEN
  {
    var o := x % 16 * 64 + 12;
    b[..o] + target + [0] + b[o + |target| + 1..]
  }

  lemma TargetIsOnlyInode(img: Image, g: Geometry, x: nat, target: seq<byte>)
    requires |target| <= MAXSYMLINKLEN && InodeBlock(g, x) < |img|
    ensures OnlyInode(img, img[InodeBlock(g, x) := WithTarget(img[InodeBlock(g, x)], x, target)], g, x)
    ensures HasTarget(img[InodeBlock(g, x) := WithTarget(img[InodeBlock(g, x)], x, target)], g, x, target)
    ensures forall f: nat :: f < 3 ==> IGet(img[InodeBlock(g, x) := WithTarget(img[InodeBlock(g, x)], x, target)], g, x, f) == IGet(img, g, x, f)
  {
    var b := img[InodeBlock(g, x)];
    var r := WithTarget(b, x, target);
    var o := x % 16 * 64 + 12;
    assert forall p :: 0 <= p < 1024 && (p < o || o + |target| < p) ==> r[p] == b[p];
    assert forall p :: 0 <= p < |target| ==> r[o + p] == target[p];
    forall f: nat | f < 3
      ensures Word(r, InodeWord(x, f)) == Word(b, InodeWord(x, f))
    {
      SameWord(b, r, InodeWord(x, f));
    }
    hide WithTarget, Word;
  }

  ghost predicate HasTarget(img: Image, g: Geometry, x: nat, target: seq<byte>) {
    |target| <= MAXSYMLINKLEN && InodeByte(img, g, x, 12 + |target|) == 0 &&
    forall p :: 0 <= p < |target| ==> InodeByte(img, g, x, 12 + p) == target[p]
  }

  lemma TargetKept(img: Image, g: Geometry, x: nat, target: seq<byte>, f: nat, v: word)
    requires HasTarget(img, g, x, target) && f < 3 && InodeBlock(g, x) < |img|
    ensures HasTarget(ISet(img, g, x, f, v), g, x, target)
  {
    forall o | 12 <= o <= 12 + |target|
      ensures InodeByte(ISet(img, g, x, f, v), g, x, o) == InodeByte(img, g, x, o)
    {
      SetWordBytes(img, InodeBlock(g, x), InodeWord(x, f), v, InodeBlock(g, x), x % 16 * 64 + o);
    }
  }

  /** A file without blocks is from now on a link; its inode is still being written. */
  lemma FsToLink(img: Image, g: Geometry, nextb: nat, nextinode: nat, fs: Fs, x: nat, pending: set<nat>, target: seq<byte>)
    requires FsCore(img, g, nextb, nextinode, fs, x, pending) && x in fs.files && NoBlocks(fs.role, x)
    ensures FsCore(img, g, nextb, nextinode, fs.(files := fs.files - {x}, links := fs.links[x := target]), x, pending)
  {
    hide Ref, FileOk, DirOk, LinkOk, LowOk, BlankInode;
    var fs' := fs.(files := fs.files - {x}, links := fs.links[x := target]);
    assert Live(fs') == Live(fs) - {x};
    assert Owned(img, g, fs.role, Live(fs')) by {
      forall b | b in fs.role
        ensures Anchored(fs.role, Live(fs'), fs.role[b])
      {
        assert Anchored(fs.role, Live(fs), fs.role[b]);
      }
      forall r | Anchored(fs.role, Live(fs'), r) && r !in fs.role.Values
        ensures Ref(img, g, r) == 0
      {
        assert Anchored(fs.role, Live(fs), r);
      }
    }
    hide Owned;
  }

  lemma FsLinkWrite(img: Image, img': Image, g: Geometry, nextb: nat, nextinode: nat, fs: Fs, x: nat, pending: set<nat>)
    requires FsCore(img, g, nextb, nextinode, fs, x, pending) && x in fs.links && OnlyInode(img, img', g, x)
    ensures FsCore(img', g, nextb, nextinode, fs, x, pending)
    ensures NlinksKept(img, img', g, x)
  {
    hide FsCore, Owned, OnlyInode, Confined, NlinksKept, BlocksOk;
    FsCoreBounds(img, g, nextb, nextinode, fs, x, pending);
    LinkIsDead(img, g, nextb, nextinode, fs, x, pending);
    OnlyInodeConfined(img, img', g, fs.role, Live(fs), x);
    ConfinedNlinks(img, img', g, fs.role, fs.role, x);
    SameBlocksOk(g, nextb, fs, fs.log, pending);
    FsConfined(img, img', g, nextb, nextinode, fs, x, pending, fs.role, nextb, pending);
  }

  lemma LinkIsDead(img: Image, g: Geometry, nextb: nat, nextinode: nat, fs: Fs, x: nat, pending: set<nat>)
    requires FsCore(img, g, nextb, nextinode, fs, x, pending) && x in fs.links
    ensures x !in Live(fs) && x < nextinode
  {
    hide Owned, FilesOk, DirsOk, LinksOk, LowOk, BlankInode, BlocksOk;
  }

  lemma FsCloseLink(img: Image, g: Geometry, nextb: nat, nextinode: nat, fs: Fs, x: nat, pending: set<nat>)
    requires FsCore(img, g, nextb, nextinode, fs, x, pending) && x in fs.links && LinkOk(img, g, x, fs.links[x])
    ensures FsCore(img, g, nextb, nextinode, fs, -1, pending)
  {
    hide Owned, FileOk, DirOk, LinkOk, BlankInode, LowOk, BlocksOk;
    assert x !in fs.files && x !in fs.dirs;
  }

  lemma FsLink(img: Image, g: Geometry, nextb: nat, nextinode: nat, fs: Fs, x: nat, pending: set<nat>)
    requires FsCore(img, g, nextb, nextinode, fs, -1, pending) && x in fs.links
    ensures FsCore(img, g, nextb, nextinode, fs, x, pending) && LinkOk(img, g, x, fs.links[x])
  {
    hide Owned, FileOk, DirOk, LinkOk, BlankInode, LowOk, BlocksOk;
  }

  /** Setting the link count of a symbolic link. */
  lemma FsLinkCount(img: Image, g: Geometry, nextb: nat, nextinode: nat, fs: Fs, x: nat, pending: set<nat>, v: word)
    requires FsCore(img, g, nextb, nextinode, fs, -1, pending) && x in fs.links
    ensures FsCore(ISet(img, g, x, NLINK, v), g, nextb, nextinode, fs, -1, pending)
    ensures NlinksKept(img, ISet(img, g, x, NLINK, v), g, x)
    ensures IGet(ISet(img, g, x, NLINK, v), g, x, NLINK) == v
  {
    hide FsCore, OnlyInode, Owned, InodeByte, NlinksKept, ISet, IGet;
    var img' := ISet(img, g, x, NLINK, v);
    FsLink(img, g, nextb, nextinode, fs, x, pending);
    LinkIsDead(img, g, nextb, nextinode, fs, x, pending);
    FsCoreBounds(img, g, nextb, nextinode, fs, x, pending);
    InodeInTable(g, x);
    WordIsOnlyInode(img, g, x, NLINK, v);
    FsLinkWrite(img, img', g, nextb, nextinode, fs, x, pending);
    InodeWrite(img, g, fs.role, Live(fs), x, NLINK, v);
    TargetKept(img, g, x, fs.links[x], NLINK, v);
    FsCloseLink(img', g, nextb, nextinode, fs, x, pending);
  }

  // ---------------------------------------------------------------- link counts

  /** How many directory entries name inode i. */
  function CountNamed(log: seq<Named>, i: nat): nat {
    if log == [] then 0
    else CountNamed(log[..|log| - 1], i) + (if log[|log| - 1].entry.ino == i then 1 else 0)
  }

  /** How many entries of directory d name a directory. */
  function CountSubdirs(log: seq<Named>, dirs: set<nat>, d: nat): nat {
    if log == [] then 0
    else CountSubdirs(log[..|log| - 1], dirs, d) +
         (if log[|log| - 1].dir == d && log[|log| - 1].entry.ino in dirs then 1 else 0)
  }

  const MOD32 := 0x1_0000_0000

  /** The link count of a file or symbolic link is the number of its names, that of a directory
      one more than the number of its subdirectories (as 32-bit numbers). Inode 0 is reserved. */
  ghost predicate NlinksOk(img: Image, g: Geometry, fs: Fs) {
    && (forall i :: i in fs.files && i != 0 ==> IGet(img, g, i, NLINK) == CountNamed(fs.log, i) % MOD32)
    && (forall i :: i in fs.links ==> IGet(img, g, i, NLINK) == CountNamed(fs.log, i) % MOD32)
    && (forall d :: d in fs.dirs ==> IGet(img, g, d, NLINK) == (1 + CountSubdirs(fs.log, fs.dirs, d)) % MOD32)
  }

  lemma CountNext(log: seq<Named>, n: Named, dirs: set<nat>, i: nat)
    ensures CountNamed(log + [n], i) == CountNamed(log, i) + (if n.entry.ino == i then 1 else 0)
    ensures CountSubdirs(log + [n], dirs, i) == CountSubdirs(log, dirs, i) + (if n.dir == i && n.entry.ino in dirs then 1 else 0)
  {
    assert (log + [n])[..|log|] == log;
  }

  lemma {:induction false} CountFresh(log: seq<Named>, dirs: set<nat>, i: nat)
    requires forall k :: 0 <= k < |log| ==> log[k].entry.ino != i && log[k].dir != i
    ensures CountNamed(log, i) == 0 && CountSubdirs(log, dirs, i) == 0
    ensures forall d :: CountSubdirs(log, dirs + {i}, d) == CountSubdirs(log, dirs, d)
  {
    if log != [] {
      CountFresh(log[..|log| - 1], dirs, i);
    }
  }

  /** One more name for a file or link. */
  lemma NlinksNamed(img: Image, img': Image, g: Geometry, fs: Fs, fs': Fs, d: nat, e: Entry)
    requires NlinksOk(img, g, fs) && fs'.log == fs.log + [Named(d, e)] && fs'.dirs == fs.dirs
    requires fs'.files.Keys <= fs.files.Keys + {e.ino} && fs'.links.Keys <= fs.links.Keys + {e.ino} && e.ino !in fs.dirs
    requires forall i :: i in fs.files || i in fs.links || i in fs.dirs ==> i < g.ninodes
    requires NlinksKept(img, img', g, e.ino) && IGet(img', g, e.ino, NLINK) == (CountNamed(fs.log, e.ino) + 1) % MOD32
    ensures NlinksOk(img', g, fs')
  {
    hide IGet, CountNamed, CountSubdirs;
    forall i: nat
      ensures CountNamed(fs'.log, i) == CountNamed(fs.log, i) + (if e.ino == i then 1 else 0)
      ensures CountSubdirs(fs'.log, fs'.dirs, i) == CountSubdirs(fs.log, fs.dirs, i)
    {
      CountNext(fs.log, Named(d, e), fs.dirs, i);
    }
  }

  /** A new directory x in directory d. */
  lemma NlinksNewDir(img: Image, img': Image, g: Geometry, fs: Fs, fs': Fs, d: nat, e: Entry)
    requires NlinksOk(img, g, fs) && fs'.log == fs.log + [Named(d, e)] && fs'.dirs == fs.dirs + {e.ino}
    requires fs'.files.Keys <= fs.files.Keys && fs'.links.Keys <= fs.links.Keys && d in fs.dirs && d != e.ino
    requires e.ino !in fs.files && e.ino !in fs.links && e.ino !in fs.dirs
    requires forall k :: 0 <= k < |fs.log| ==> fs.log[k].entry.ino != e.ino && fs.log[k].dir != e.ino
    requires forall i: nat :: i < g.ninodes && i != e.ino && i != d ==> IGet(img', g, i, NLINK) == IGet(img, g, i, NLINK)
    requires forall i :: i in fs.files || i in fs.links || i in fs.dirs ==> i < g.ninodes
    requires IGet(img', g, e.ino, NLINK) == 1 && IGet(img', g, d, NLINK) == (IGet(img, g, d, NLINK) + 1) % MOD32
    requires fs'.files.Keys !! fs'.dirs && fs'.links.Keys !! fs'.dirs
    ensures NlinksOk(img', g, fs')
  {
    hide IGet, CountNamed, CountSubdirs;
    CountFresh(fs.log, fs.dirs, e.ino);
    forall i: nat
      ensures CountNamed(fs'.log, i) == CountNamed(fs.log, i) + (if e.ino == i then 1 else 0)
      ensures CountSubdirs(fs'.log, fs'.dirs, i) == CountSubdirs(fs.log, fs.dirs, i) + (if d == i then 1 else 0)
    {
      CountNext(fs.log, Named(d, e), fs.dirs + {e.ino}, i);
    }
  }

  // ---------------------------------------------------------------- the last directory block

  /** In the last block of a directory the entries in use come first. */
  lemma LastBlock(img: Image, g: Geometry, nextb: nat, nextinode: nat, fs: Fs, d: nat, n: nat, q: nat)
    requires FsCore(img, g, nextb, nextinode, fs, -1, {}) && d in fs.dirs && q < 8
    requires n == IGet(img, g, d, SIZE) / 1024 && n > 0
    ensures Data(d, n - 1) in fs.role.Values && Ref(img, g, Data(d, n - 1)) < |img|
    ensures Word(img[Ref(img, g, Data(d, n - 1))], q * 32) != 0 <==> (n - 1) * 8 + q < |Entries(fs.log, d)|
    ensures (n - 1) * 8 <= |Entries(fs.log, d)| <= n * 8 && n <= MAXFILEBLKS
  {
    hide FsCore, IGet, Ref, Word;
    var ents := Entries(fs.log, d);
    var p := (n - 1) * 8 + q;
    FsDir(img, g, nextb, nextinode, fs, d, {});
    FsCoreBounds(img, g, nextb, nextinode, fs, d, {});
    EntryHome(img, g, fs.role, Live(fs), d, n, ents, p);
    if p < |ents| {
      assert EntryOk(img, g, d, p, ents[p]);
    } else {
      assert EntryIno(img, g, d, p) == 0;
    }
  }

  /** What the invariant says about one directory. */
  lemma DirFacts(img: Image, g: Geometry, nextb: nat, nextinode: nat, fs: Fs, d: nat, pending: set<nat>)
    requires FsCore(img, g, nextb, nextinode, fs, -1, pending) && d in fs.dirs
    ensures IGet(img, g, d, SIZE) % 1024 == 0
    ensures |Entries(fs.log, d)| <= IGet(img, g, d, SIZE) / 1024 * 8 <= |Entries(fs.log, d)| + 8
    ensures HasBlocks(fs.role, d, IGet(img, g, d, SIZE) / 1024)
    ensures DirBody(img, g, fs.role, d, IGet(img, g, d, SIZE) / 1024, Entries(fs.log, d))
    ensures d < nextinode && d in Live(fs) && IGet(img, g, d, FTYPE) == FTYPE_DIR
  {
    hide FsCore, IGet;
    FsDir(img, g, nextb, nextinode, fs, d, pending);
    DirHas(img, g, fs.role, d, IGet(img, g, d, SIZE) / 1024, Entries(fs.log, d));
  }
}
