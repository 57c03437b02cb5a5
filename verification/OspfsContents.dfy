/** What an OSPFS image means: the bytes of its files, the entries of its directories and the
    targets of its symbolic links. */
module OspfsContents {
  import opened OspfsLayout

  const FTYPE_REG := 0
  const FTYPE_DIR := 1
  const FTYPE_SYMLINK := 2
  const MAXNAMELEN := 123
  const MAXSYMLINKLEN := 51

  function Nblocks(size: nat): nat {
    (size + 1023) / 1024
  }

  /** The smallest number of blocks of 1024 bytes that holds so many bytes. */
  lemma NblocksExact(size: nat)
    ensures size <= 1024 * Nblocks(size) < size + 1024
  {
  }

  /** Byte p of the file behind inode i, found through the block tree. */
  function ByteOf(img: Image, g: Geometry, i: nat, p: nat): byte {
    BlockAt(img, Ref(img, g, Data(i, p / 1024)))[p % 1024]
  }

  /** File i has exactly n data blocks. */
  ghost predicate HasBlocks(role: Roles, i: nat, n: nat) {
    n <= MAXFILEBLKS && forall k: nat :: k < MAXFILEBLKS ==> (Data(i, k) in role.Values <==> k < n)
  }

  /** File i has n data blocks that hold the content and zeros after it. */
  ghost predicate Body(img: Image, g: Geometry, role: Roles, i: nat, n: nat, content: seq<byte>) {
    && HasBlocks(role, i, n)
    && |content| <= n * 1024
    && forall p: nat :: p < n * 1024 ==> ByteOf(img, g, i, p) == if p < |content| then content[p] else 0
  }

  ghost predicate FileOk(img: Image, g: Geometry, role: Roles, i: nat, content: seq<byte>) {
    && IGet(img, g, i, FTYPE) == FTYPE_REG
    && IGet(img, g, i, SIZE) == |content|
    && Body(img, g, role, i, Nblocks(|content|), content)
  }

  // ---------------------------------------------------------------- directories

  datatype Entry = Entry(ino: nat, name: seq<byte>)

  predicate ValidName(name: seq<byte>) {
    |name| <= MAXNAMELEN && 0 !in name
  }

  /** The 128-byte entry q of a block carries this name as a C string. */
  predicate NameAt(b: Block, q: nat, name: seq<byte>)
    requires q < 8
  {
    |name| <= MAXNAMELEN && b[q * 128 + 4 + |name|] == 0 &&
    forall x :: 0 <= x < |name| ==> b[q * 128 + 4 + x] == name[x]
  }

  function EntryBlock(img: Image, g: Geometry, d: nat, p: nat): Block {
    BlockAt(img, Ref(img, g, Data(d, p / 8)))
  }

  function EntryIno(img: Image, g: Geometry, d: nat, p: nat): word {
    Word(EntryBlock(img, g, d, p), p % 8 * 32)
  }

  ghost predicate EntryOk(img: Image, g: Geometry, d: nat, p: nat, e: Entry) {
    e.ino != 0 && EntryIno(img, g, d, p) == e.ino && ValidName(e.name) && NameAt(EntryBlock(img, g, d, p), p % 8, e.name)
  }

  /** Directory d has n blocks. The entries fill them from the front, at most the last block
      has room, and every entry behind them is empty. */
  ghost predicate DirBody(img: Image, g: Geometry, role: Roles, d: nat, n: nat, ents: seq<Entry>) {
    && HasBlocks(role, d, n)
    && |ents| <= n * 8 <= |ents| + 8
    && (forall p :: 0 <= p < |ents| ==> EntryOk(img, g, d, p, ents[p]))
    && (forall p :: |ents| <= p < n * 8 ==> EntryIno(img, g, d, p) == 0)
  }

  ghost predicate DirOk(img: Image, g: Geometry, role: Roles, d: nat, ents: seq<Entry>) {
    && IGet(img, g, d, FTYPE) == FTYPE_DIR
    && IGet(img, g, d, SIZE) % 1024 == 0
    && DirBody(img, g, role, d, IGet(img, g, d, SIZE) / 1024, ents)
  }

  // ---------------------------------------------------------------- symbolic links

  function InodeByte(img: Image, g: Geometry, i: nat, o: nat): byte
    requires o < 64
  {
    if InodeBlock(g, i) < |img| then img[InodeBlock(g, i)][i % 16 * 64 + o] else 0
  }

  ghost predicate LinkOk(img: Image, g: Geometry, i: nat, target: seq<byte>) {
    && IGet(img, g, i, FTYPE) == FTYPE_SYMLINK
    && IGet(img, g, i, SIZE) == |target| <= MAXSYMLINKLEN
    && InodeByte(img, g, i, 12 + |target|) == 0
    && forall x :: 0 <= x < |target| ==> InodeByte(img, g, i, 12 + x) == target[x]
  }

  // ---------------------------------------------------------------- changes elsewhere

  ghost predicate SameInode(img: Image, img': Image, g: Geometry, i: nat) {
    forall o :: 0 <= o < 64 ==> InodeByte(img', g, i, o) == InodeByte(img, g, i, o)
  }

  ghost predicate SameBlocks(img: Image, img': Image, role: Roles, i: nat) {
    forall b :: b in role && role[b].ino == i ==> b < |img| && b < |img'| && img'[b] == img[b]
  }

  lemma SameInodeWords(img: Image, img': Image, g: Geometry, i: nat, f: nat)
    requires f < 16 && |img| == |img'| && InodeBlock(g, i) < |img| && SameInode(img, img', g, i)
    ensures IGet(img', g, i, f) == IGet(img, g, i, f)
  {
    var o := 4 * f;
    assert InodeByte(img', g, i, o) == InodeByte(img, g, i, o) && InodeByte(img', g, i, o + 1) == InodeByte(img, g, i, o + 1);
    assert InodeByte(img', g, i, o + 2) == InodeByte(img, g, i, o + 2) && InodeByte(img', g, i, o + 3) == InodeByte(img, g, i, o + 3);
    var w := InodeWord(i, f);
    assert 4 * w == i % 16 * 64 + o;
    var b, b' := img[InodeBlock(g, i)], img'[InodeBlock(g, i)];
    assert InodeByte(img, g, i, o) == b[4 * w] && InodeByte(img, g, i, o + 1) == b[4 * w + 1];
    assert InodeByte(img, g, i, o + 2) == b[4 * w + 2] && InodeByte(img, g, i, o + 3) == b[4 * w + 3];
    assert InodeByte(img', g, i, o) == b'[4 * w] && InodeByte(img', g, i, o + 1) == b'[4 * w + 1];
    assert InodeByte(img', g, i, o + 2) == b'[4 * w + 2] && InodeByte(img', g, i, o + 3) == b'[4 * w + 3];
  }

  lemma SamePointersFrom(img: Image, img': Image, g: Geometry, role: Roles, live: set<nat>, i: nat)
    requires Owned(img, g, role, live) && |img'| == |img| && i in live
    requires SameInode(img, img', g, i) && SameBlocks(img, img', role, i)
    ensures SamePointers(img, img', g, role, i)
  {
    hide Word, SameInode;
    InodeInTable(g, i);
    forall f | DIRECT <= f < 16
      ensures IGet(img', g, i, f) == IGet(img, g, i, f)
    {
      SameInodeWords(img, img', g, i, f);
    }
  }

  /** The data blocks of an unchanged file are where they were and hold what they held. */
  lemma DataKept(img: Image, img': Image, g: Geometry, role: Roles, live: set<nat>, i: nat, k: nat)
    requires Owned(img, g, role, live) && |img'| == |img| && i in live
    requires SameInode(img, img', g, i) && SameBlocks(img, img', role, i)
    requires Data(i, k) in role.Values
    ensures Ref(img', g, Data(i, k)) == Ref(img, g, Data(i, k)) < |img|
    ensures img'[Ref(img, g, Data(i, k))] == img[Ref(img, g, Data(i, k))]
  {
    SamePointersFrom(img, img', g, role, live, i);
    hide Ref, SameInode, SlotBlock;
    var b :| b in role && role[b] == Data(i, k);
    RefFrame(img, img', g, role, live, Data(i, k));
  }

  // ---------------------------------------------------------------- changes to one inode

  /** The data blocks of inode i are where they were and hold what they held. */
  ghost predicate SameDataBlocks(img: Image, img': Image, g: Geometry, role: Roles, i: nat) {
    forall k: nat :: Data(i, k) in role.Values ==>
      Ref(img', g, Data(i, k)) == Ref(img, g, Data(i, k)) &&
      BlockAt(img', Ref(img, g, Data(i, k))) == BlockAt(img, Ref(img, g, Data(i, k)))
  }

  /** ... and the attributes of the inode are the same too. */
  ghost predicate SameData(img: Image, img': Image, g: Geometry, role: Roles, i: nat) {
    && SameDataBlocks(img, img', g, role, i)
    && (forall f :: 0 <= f < 4 ==> IGet(img', g, i, f) == IGet(img, g, i, f))
  }

  lemma SameDataFrom(img: Image, img': Image, g: Geometry, role: Roles, live: set<nat>, i: nat)
    requires Owned(img, g, role, live) && |img'| == |img| && i in live
    requires SameInode(img, img', g, i) && SameBlocks(img, img', role, i)
    ensures SameData(img, img', g, role, i)
  {
    InodeInTable(g, i);
    hide Word, SameInode, Ref;
    forall f | 0 <= f < 4
      ensures IGet(img', g, i, f) == IGet(img, g, i, f)
    {
      SameInodeWords(img, img', g, i, f);
    }
    forall k: nat | Data(i, k) in role.Values
      ensures Ref(img', g, Data(i, k)) == Ref(img, g, Data(i, k)) < |img| && img'[Ref(img, g, Data(i, k))] == img[Ref(img, g, Data(i, k))]
    {
      DataKept(img, img', g, role, live, i, k);
    }
  }

  lemma BodyKept(img: Image, img': Image, g: Geometry, role: Roles, role': Roles, i: nat, n: nat, content: seq<byte>)
    requires SameDataBlocks(img, img', g, role, i)
    requires Body(img, g, role, i, n, content) && HasBlocks(role', i, n)
    ensures Body(img', g, role', i, n, content)
  {
    hide Ref;
    forall p: nat | p < n * 1024
      ensures ByteOf(img', g, i, p) == ByteOf(img, g, i, p)
    {
      assert Data(i, p / 1024) in role.Values;
    }
  }

  lemma DirBodyKept(img: Image, img': Image, g: Geometry, role: Roles, role': Roles, d: nat, n: nat, ents: seq<Entry>)
    requires SameDataBlocks(img, img', g, role, d)
    requires DirBody(img, g, role, d, n, ents) && HasBlocks(role', d, n)
    ensures DirBody(img', g, role', d, n, ents)
  {
    hide Ref, IGet, Word;
    forall p | 0 <= p < n * 8
      ensures EntryBlock(img', g, d, p) == EntryBlock(img, g, d, p)
    {
      assert Data(d, p / 8) in role.Values;
    }
    forall p | 0 <= p < |ents|
      ensures EntryOk(img', g, d, p, ents[p])
    {
      assert EntryOk(img, g, d, p, ents[p]);
    }
    forall p | |ents| <= p < n * 8
      ensures EntryIno(img', g, d, p) == 0
    {
      assert EntryIno(img, g, d, p) == 0;
    }
  }

  lemma LinkKept(img: Image, img': Image, g: Geometry, i: nat, target: seq<byte>)
    requires |img'| == |img| && InodeBlock(g, i) < |img|
    requires SameInode(img, img', g, i) && LinkOk(img, g, i, target)
    ensures LinkOk(img', g, i, target)
  {
    SameInodeWords(img, img', g, i, FTYPE);
    SameInodeWords(img, img', g, i, SIZE);
    hide IGet;
  }

  /** Only inode x, the blocks it owns and blocks nobody owned have changed; all new owners
      belong to x. */
  ghost predicate Confined(img: Image, img': Image, g: Geometry, role: Roles, role': Roles, x: nat) {
    && |img'| == |img|
    && (forall j: nat :: j != x && j < g.ninodes ==> SameInode(img, img', g, j))
    && (forall b :: b in role ==> b in role' && role'[b] == role[b])
    && (forall b :: b in role' && b !in role ==> role'[b].ino == x)
    && (forall b :: b in role && role[b].ino != x ==> b < |img| && img'[b] == img[b])
    && (forall b: nat :: b < g.firstinob && b < |img| ==> img'[b] == img[b])
  }

  lemma ConfinedTrans(a: Image, b: Image, c: Image, g: Geometry, ra: Roles, rb: Roles, rc: Roles, x: nat)
    requires Confined(a, b, g, ra, rb, x) && Confined(b, c, g, rb, rc, x)
    ensures Confined(a, c, g, ra, rc, x)
  {
    forall j: nat | j != x && j < g.ninodes
      ensures SameInode(a, c, g, j)
    {
      assert SameInode(a, b, g, j) && SameInode(b, c, g, j);
      hide InodeByte;
    }
  }

  lemma ConfinedHas(img: Image, img': Image, g: Geometry, role: Roles, role': Roles, x: nat, j: nat, n: nat)
    requires Confined(img, img', g, role, role', x) && j != x && HasBlocks(role, j, n)
    ensures HasBlocks(role', j, n)
  {
    forall k: nat | k < MAXFILEBLKS
      ensures Data(j, k) in role'.Values <==> Data(j, k) in role.Values
    {
      if Data(j, k) in role'.Values {
        var b :| b in role' && role'[b] == Data(j, k);
        assert role[b] == Data(j, k);
      }
      if Data(j, k) in role.Values {
        var b :| b in role && role[b] == Data(j, k);
        assert role'[b] == Data(j, k);
      }
    }
  }

  lemma ConfinedSame(img: Image, img': Image, g: Geometry, role: Roles, role': Roles, live: set<nat>, x: nat, j: nat)
    requires Owned(img, g, role, live) && Confined(img, img', g, role, role', x) && j != x && j in live
    ensures SameData(img, img', g, role, j)
  {
    SameDataFrom(img, img', g, role, live, j);
  }

  // ---------------------------------------------------------------- the elementary changes

  lemma SetWordBytes(img: Image, b: nat, w: nat, v: word, c: nat, o: nat)
    requires b < |img| && w < 256 && c < |img| && o < 1024
    requires c != b || o < 4 * w || 4 * w + 4 <= o
    ensures SetWordAt(img, b, w, v)[c][o] == img[c][o]
  {
  }

  /** Writing a word of inode x. */
  lemma InodeWrite(img: Image, g: Geometry, role: Roles, live: set<nat>, x: nat, f: nat, v: word)
    requires Owned(img, g, role, live) && x < g.ninodes && f < 16
    ensures Confined(img, ISet(img, g, x, f, v), g, role, role, x)
    ensures forall h :: 0 <= h < 16 && h != f ==> IGet(ISet(img, g, x, f, v), g, x, h) == IGet(img, g, x, h)
    ensures IGet(ISet(img, g, x, f, v), g, x, f) == v
  {
    var img' := ISet(img, g, x, f, v);
    InodeInTable(g, x);
    forall j: nat | j != x && j < g.ninodes
      ensures SameInode(img, img', g, j)
    {
      InodeInTable(g, j);
      forall o | 0 <= o < 64
        ensures InodeByte(img', g, j, o) == InodeByte(img, g, j, o)
      {
        SetWordBytes(img, InodeBlock(g, x), InodeWord(x, f), v, InodeBlock(g, j), j % 16 * 64 + o);
      }
    }
    forall h | 0 <= h < 16 && h != f
      ensures IGet(img', g, x, h) == IGet(img, g, x, h)
    {
      SetWordAtFrame(img, InodeBlock(g, x), InodeWord(x, f), v, InodeBlock(g, x), InodeWord(x, h));
    }
    SetWordAtFrame(img, InodeBlock(g, x), InodeWord(x, f), v, InodeBlock(g, x), InodeWord(x, f));
    hide Word, SameInode, SetWordAt;
  }

  /** Writing an attribute of inode x keeps ownership and the data of x. */
  lemma AttributeWrite(img: Image, g: Geometry, role: Roles, live: set<nat>, x: nat, f: nat, v: word)
    requires Owned(img, g, role, live) && x < g.ninodes && f < 4
    ensures Confined(img, ISet(img, g, x, f, v), g, role, role, x)
    ensures Owned(ISet(img, g, x, f, v), g, role, live)
    ensures SameDataBlocks(img, ISet(img, g, x, f, v), g, role, x)
  {
    var img' := ISet(img, g, x, f, v);
    InodeWrite(img, g, role, live, x, f, v);
    forall i | i in live
      ensures SamePointers(img, img', g, role, i)
    {
      AttributePointers(img, g, role, live, x, f, v, i);
    }
    UntouchedPointers(img, img', g, role, live);
    forall k: nat | Data(x, k) in role.Values
      ensures Ref(img', g, Data(x, k)) == Ref(img, g, Data(x, k))
      ensures BlockAt(img', Ref(img, g, Data(x, k))) == BlockAt(img, Ref(img, g, Data(x, k)))
    {
      var b :| b in role && role[b] == Data(x, k);
      RefFrame(img, img', g, role, live, Data(x, k));
      InodeInTable(g, x);
      hide Ref, Word, SlotBlock, SamePointers;
    }
  }

  lemma AttributePointers(img: Image, g: Geometry, role: Roles, live: set<nat>, x: nat, f: nat, v: word, i: nat)
    requires Owned(img, g, role, live) && x < g.ninodes && f < 4 && i in live
    ensures SamePointers(img, ISet(img, g, x, f, v), g, role, i)
  {
    var img' := ISet(img, g, x, f, v);
    InodeInTable(g, x);
    InodeWrite(img, g, role, live, x, f, v);
    if i != x {
      assert SameInode(img, img', g, i);
      SamePointersFrom(img, img', g, role, live, i);
    }
  }

  /** Writing a block that nobody owns. */
  lemma FreshWrite(img: Image, g: Geometry, role: Roles, live: set<nat>, b: nat, content: Block, x: nat)
    requires Owned(img, g, role, live) && b !in role && g.firstdata <= b < g.nblocks
    ensures Owned(img[b := content], g, role, live)
    ensures Confined(img, img[b := content], g, role, role, x)
    ensures forall i :: i in live ==> SameData(img, img[b := content], g, role, i)
  {
    var img' := img[b := content];
    FreshBlockKeepsOwned(img, g, role, live, b, content);
    forall j: nat | j < g.ninodes
      ensures SameInode(img, img', g, j)
    {
      InodeInTable(g, j);
    }
    forall i | i in live
      ensures SameData(img, img', g, role, i)
    {
      SameDataFrom(img, img', g, role, live, i);
    }
    hide SameData, SameInode, Owned;
  }

  /** Storing a pointer for an inode. */
  lemma HookWrite(img: Image, g: Geometry, role: Roles, live: set<nat>, r: Role, b: word)
    requires Owned(img, g, role, live) && Anchored(role, live, r) && r !in role.Values
    requires b !in role && g.firstdata <= b < g.nblocks && (!r.Data? ==> img[b] == ZERO)
    ensures Owned(Hook(img, g, r, b), g, role[b := r], live)
    ensures role[b := r].Values == role.Values + {r}
    ensures Confined(img, Hook(img, g, r, b), g, role, role[b := r], r.ino)
    ensures SameData(img, Hook(img, g, r, b), g, role, r.ino)
    ensures Ref(Hook(img, g, r, b), g, r) == b && Hook(img, g, r, b)[b] == img[b]
  {
    HookKeepsOwned(img, g, role, live, r, b);
    HookFrame(img, g, role, live, r, b, r);
    HookConfined(img, g, role, live, r, b);
    HookKeepsData(img, g, role, live, r, b);
    SlotHome(img, g, role, live, r);
    hide Owned, Ref, SlotBlock, SameData, Confined, Word;
  }

  lemma HookConfined(img: Image, g: Geometry, role: Roles, live: set<nat>, r: Role, b: word)
    requires Owned(img, g, role, live) && Anchored(role, live, r) && r !in role.Values
    requires b !in role && g.firstdata <= b < g.nblocks
    ensures Confined(img, Hook(img, g, r, b), g, role, role[b := r], r.ino)
  {
    var img' := Hook(img, g, r, b);
    if Parent(r) == r {
      var f := if r.Data? then DIRECT + r.k else if r.Ind? then INDIRECT else INDIRECT2;
      InodeHook(img, g, r, b, f);
      InodeWrite(img, g, role, live, r.ino, f, b);
      hide Ref, SameInode, Hook, Anchored, SlotBlock, SlotWord, ISet;
      assert Confined(img, img', g, role, role, r.ino);
    } else {
      SlotHome(img, g, role, live, r);
      forall j: nat | j < g.ninodes
        ensures SameInode(img, img', g, j)
      {
        InodeInTable(g, j);
      }
      hide Ref, SameInode, Anchored, SlotBlock, SlotWord;
    }
  }

  lemma InodeHook(img: Image, g: Geometry, r: Role, b: word, f: nat)
    requires Parent(r) == r && ValidRole(r)
    requires f == if r.Data? then DIRECT + r.k else if r.Ind? then INDIRECT else INDIRECT2
    ensures f < 16 && Hook(img, g, r, b) == ISet(img, g, r.ino, f, b)
  {
  }

  lemma HookKeepsData(img: Image, g: Geometry, role: Roles, live: set<nat>, r: Role, b: word)
    requires Owned(img, g, role, live) && Anchored(role, live, r) && r !in role.Values
    ensures SameData(img, Hook(img, g, r, b), g, role, r.ino)
  {
    var img' := Hook(img, g, r, b);
    SlotHome(img, g, role, live, r);
    forall k: nat | Data(r.ino, k) in role.Values
      ensures Ref(img', g, Data(r.ino, k)) == Ref(img, g, Data(r.ino, k))
      ensures BlockAt(img', Ref(img, g, Data(r.ino, k))) == BlockAt(img, Ref(img, g, Data(r.ino, k)))
    {
      var c :| c in role && role[c] == Data(r.ino, k);
      HookFrame(img, g, role, live, r, b, Data(r.ino, k));
      hide Ref, SlotBlock, Word;
    }
    InodeInTable(g, r.ino);
    forall f | 0 <= f < 4
      ensures IGet(img', g, r.ino, f) == IGet(img, g, r.ino, f)
    {
      SetWordAtFrame(img, SlotBlock(img, g, r), SlotWord(r), b, InodeBlock(g, r.ino), InodeWord(r.ino, f));
    }
  }

  // ---------------------------------------------------------------- one more data block

  /** Inode i has gained block b as its n-th data block and nothing else. */
  ghost predicate Grown(img: Image, img': Image, g: Geometry, role: Roles, role': Roles, i: nat, n: nat, b: nat) {
    && Confined(img, img', g, role, role', i)
    && SameData(img, img', g, role, i)
    && HasBlocks(role, i, n) && HasBlocks(role', i, n + 1)
    && b in role' && role'[b] == Data(i, n)
    && Ref(img', g, Data(i, n)) == b && b < |img| && img'[b] == img[b]
  }

  lemma HasBlocksNext(role: Roles, i: nat, n: nat, b: nat)
    requires HasBlocks(role, i, n) && n < MAXFILEBLKS && b !in role
    requires role[b := Data(i, n)].Values == role.Values + {Data(i, n)}
    ensures HasBlocks(role[b := Data(i, n)], i, n + 1)
  {
  }

  lemma BodyGrown(img: Image, img': Image, g: Geometry, role: Roles, role': Roles, i: nat, n: nat, b: nat,
                  content: seq<byte>, chunk: seq<byte>)
    requires Grown(img, img', g, role, role', i, n, b)
    requires Body(img, g, role, i, n, content) && |content| == n * 1024 && |chunk| <= 1024
    requires forall o :: 0 <= o < 1024 ==> img[b][o] == if o < |chunk| then chunk[o] else 0
    ensures Body(img', g, role', i, n + 1, content + chunk)
  {
    assert |img'| == |img|;
    hide Ref, Confined;
    forall p: nat | p < (n + 1) * 1024
      ensures ByteOf(img', g, i, p) == if p < |content + chunk| then (content + chunk)[p] else 0
    {
      var k := p / 1024;
      if k == n {
        assert p == n * 1024 + p % 1024;
        assert ByteOf(img', g, i, p) == img[b][p % 1024];
      } else {
        assert Data(i, k) in role.Values;
        assert ByteOf(img', g, i, p) == ByteOf(img, g, i, p);
      }
    }
  }

  lemma DirGrown(img: Image, img': Image, g: Geometry, role: Roles, role': Roles, d: nat, n: nat, b: nat, ents: seq<Entry>)
    requires Grown(img, img', g, role, role', d, n, b)
    requires DirBody(img, g, role, d, n, ents) && |ents| == n * 8 && img[b] == ZERO
    ensures DirBody(img', g, role', d, n + 1, ents)
  {
    hide Ref, Confined, IGet, Word;
    forall p | 0 <= p < n * 8
      ensures EntryBlock(img', g, d, p) == EntryBlock(img, g, d, p)
    {
      assert Data(d, p / 8) in role.Values;
    }
    forall p | 0 <= p < |ents|
      ensures EntryOk(img', g, d, p, ents[p])
    {
      assert EntryOk(img, g, d, p, ents[p]);
    }
    forall p | |ents| <= p < (n + 1) * 8
      ensures EntryIno(img', g, d, p) == 0
    {
      assert p / 8 == n;
      ZeroWord(p % 8 * 32);
    }
  }
}
