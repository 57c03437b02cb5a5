/** The on-disk layout of OSPFS (lab3/ospfs.h): blocks of bytes read as little-endian words,
    the inode table, the three-level block tree of a file, and who owns each block. */
module OspfsLayout {

  type byte = x: int | 0 <= x < 256
  type word = x: int | 0 <= x < 0x1_0000_0000

  const BLKSIZE := 1024
  const NDIRECT := 10
  const NINDIRECT := 256
  const MAXFILEBLKS := 10 + 256 + 256 * 256
  const FREEMAP_BLK := 2

  type Block = b: seq<byte> | |b| == 1024 witness seq(1024, _ => 0)
  type Image = seq<Block>

  function ZeroBlock(): Block {
    seq(1024, _ => 0)
  }

  const ZERO: Block := ZeroBlock()

  // ---------------------------------------------------------------- words in a block

  function Word(b: Block, w: nat): word
    requires w < 256
  {
    (b[4 * w] as int) + 256 * (b[4 * w + 1] as int) + 0x1_0000 * (b[4 * w + 2] as int) + 0x100_0000 * (b[4 * w + 3] as int)
  }

  lemma WordOfBytes(v: word)
    ensures v % 256 + 256 * (v / 256 % 256) + 0x1_0000 * (v / 0x1_0000 % 256) + 0x100_0000 * (v / 0x100_0000) == v
    ensures v / 0x100_0000 < 256
  {
    var x, y := v / 256, v / 0x1_0000;
    assert v == 256 * x + v % 256 && x == 256 * y + x % 256 && y == 256 * (v / 0x100_0000) + y % 256;
  }

  /** Stores a word: it reads back, and no other word and no other byte changes. */
  function SetWord(b: Block, w: nat, v: word): (r: Block)
    requires w < 256
    ensures Word(r, w) == v
    ensures forall x: nat :: x < 256 && x != w ==> Word(r, x) == Word(b, x)
    ensures forall o: nat :: o < 1024 && (o < 4 * w || 4 * w + 4 <= o) ==> r[o] == b[o]
  {
    WordOfBytes(v);
    b[4 * w := v % 256][4 * w + 1 := v / 256 % 256][4 * w + 2 := v / 0x1_0000 % 256][4 * w + 3 := v / 0x100_0000]
  }

  lemma ZeroWord(w: nat)
    requires w < 256
    ensures Word(ZERO, w) == 0
  {
  }

  function BlockAt(img: Image, b: nat): Block {
    if b < |img| then img[b] else ZERO
  }

  function WordAt(img: Image, b: nat, w: nat): word {
    if b < |img| && w < 256 then Word(img[b], w) else 0
  }

  function SetWordAt(img: Image, b: nat, w: nat, v: word): (r: Image)
    ensures |r| == |img|
  {
    if b < |img| && w < 256 then img[b := SetWord(img[b], w, v)] else img
  }

  lemma SetWordAtFrame(img: Image, b: nat, w: nat, v: word, b': nat, w': nat)
    ensures (b', w') != (b, w) ==> WordAt(SetWordAt(img, b, w, v), b', w') == WordAt(img, b', w')
    ensures b < |img| && w < 256 ==> WordAt(SetWordAt(img, b, w, v), b, w) == v
  {
  }

  // ---------------------------------------------------------------- inodes

  datatype Geometry = Geometry(nblocks: nat, ninodes: nat, firstinob: nat, firstdata: nat)

  /** The inode table lies between the bitmap and the data blocks. */
  predicate ValidGeometry(g: Geometry) {
    && 2 < g.firstinob < g.firstdata <= g.nblocks <= 8192
    && g.firstdata == g.firstinob + (g.ninodes + 15) / 16
  }

  const SIZE := 0
  const FTYPE := 1
  const NLINK := 2
  const MODE := 3
  const DIRECT := 4
  const INDIRECT := 14
  const INDIRECT2 := 15

  function InodeBlock(g: Geometry, i: nat): nat {
    g.firstinob + i / 16
  }

  function InodeWord(i: nat, field: nat): nat
    requires field < 16
  {
    i % 16 * 16 + field
  }

  function IGet(img: Image, g: Geometry, i: nat, field: nat): word
    requires field < 16
  {
    WordAt(img, InodeBlock(g, i), InodeWord(i, field))
  }

  function ISet(img: Image, g: Geometry, i: nat, field: nat, v: word): (r: Image)
    requires field < 16
    ensures |r| == |img|
  {
    SetWordAt(img, InodeBlock(g, i), InodeWord(i, field), v)
  }

  // ---------------------------------------------------------------- the block tree

  /** The job of an allocated block: the k-th data block of a file, or one of its three
      kinds of pointer block. */
  datatype Role =
    | Data(ino: nat, k: nat)
    | Ind(ino: nat)
    | Ind2(ino: nat)
    | Ind2Ind(ino: nat, j: nat)

  predicate ValidRole(r: Role) {
    match r
    case Data(_, k) => k < MAXFILEBLKS
    case Ind2Ind(_, j) => j < NINDIRECT
    case _ => true
  }

  /** The block and word that hold the pointer to a block with this role. */
  function SlotBlock(img: Image, g: Geometry, r: Role): nat {
    match r
    case Ind(i) => InodeBlock(g, i)
    case Ind2(i) => InodeBlock(g, i)
    case Ind2Ind(i, _) => IGet(img, g, i, INDIRECT2)
    case Data(i, k) =>
      if k < 10 then InodeBlock(g, i)
      else if k < 266 then IGet(img, g, i, INDIRECT)
      else WordAt(img, IGet(img, g, i, INDIRECT2), (k - 266) / 256)
  }

  function SlotWord(r: Role): nat {
    match r
    case Ind(i) => InodeWord(i, INDIRECT)
    case Ind2(i) => InodeWord(i, INDIRECT2)
    case Ind2Ind(_, j) => j
    case Data(i, k) =>
      if k < 10 then InodeWord(i, DIRECT + k)
      else if k < 266 then k - 10
      else (k - 266) % 256
  }

  /** The pointer stored for a role. */
  function Ref(img: Image, g: Geometry, r: Role): word {
    WordAt(img, SlotBlock(img, g, r), SlotWord(r))
  }

  /** Stores the pointer for a role. */
  function Hook(img: Image, g: Geometry, r: Role, b: word): (r': Image)
    ensures |r'| == |img|
  {
    SetWordAt(img, SlotBlock(img, g, r), SlotWord(r), b)
  }

  /** The pointer block that holds the pointer for a role, if it is not in the inode. */
  function Parent(r: Role): (p: Role) {
    match r
    case Data(i, k) => if k < 10 then r else if k < 266 then Ind(i) else Ind2Ind(i, (k - 266) / 256)
    case Ind2Ind(i, _) => Ind2(i)
    case _ => r
  }

  // ---------------------------------------------------------------- ownership

  type Roles = map<nat, Role>

  /** The place where the pointer for r belongs exists. */
  predicate Anchored(role: Roles, live: set<nat>, r: Role) {
    ValidRole(r) && r.ino in live && (Parent(r) == r || Parent(r) in role.Values)
  }

  /** Every block with a role is a data block whose pointer slot holds its number, and every
      pointer slot without a block is zero. */
  ghost predicate Owned(img: Image, g: Geometry, role: Roles, live: set<nat>) {
    && |img| == g.nblocks && ValidGeometry(g)
    && (forall i :: i in live ==> i < g.ninodes)
    && (forall b :: b in role ==> g.firstdata <= b < g.nblocks && Anchored(role, live, role[b]) && Ref(img, g, role[b]) == b)
    && (forall r :: Anchored(role, live, r) && r !in role.Values ==> Ref(img, g, r) == 0)
  }

  /** A block is referenced by exactly one slot: the pointer of an anchored role is zero or
      leads to the one block with that role. */
  lemma RefExact(img: Image, g: Geometry, role: Roles, live: set<nat>, r: Role)
    requires Owned(img, g, role, live) && Anchored(role, live, r)
    ensures if r in role.Values then Ref(img, g, r) in role && role[Ref(img, g, r)] == r
            else Ref(img, g, r) == 0
  {
    if r in role.Values {
      var b :| b in role && role[b] == r;
    }
  }

  lemma InodeInTable(g: Geometry, i: nat)
    requires ValidGeometry(g) && i < g.ninodes
    ensures g.firstinob <= InodeBlock(g, i) < g.firstdata
  {
  }

  /** The block that holds the pointer of an anchored role. */
  lemma SlotHome(img: Image, g: Geometry, role: Roles, live: set<nat>, r: Role)
    requires Owned(img, g, role, live) && Anchored(role, live, r)
    ensures SlotWord(r) < 256
    ensures Parent(r) == r ==> g.firstinob <= SlotBlock(img, g, r) == InodeBlock(g, r.ino) < g.firstdata
    ensures Parent(r) != r ==> SlotBlock(img, g, r) in role && role[SlotBlock(img, g, r)] == Parent(r)
  {
    hide Word;
    InodeInTable(g, r.ino);
    if Parent(r) != r {
      var p := Parent(r);
      var b :| b in role && role[b] == p;
      assert Ref(img, g, p) == b;
    }
  }

  /** Different roles have their pointers in different places. */
  lemma SlotsDiffer(img: Image, g: Geometry, role: Roles, live: set<nat>, r: Role, r': Role)
    requires Owned(img, g, role, live) && Anchored(role, live, r) && Anchored(role, live, r') && r != r'
    ensures (SlotBlock(img, g, r), SlotWord(r)) != (SlotBlock(img, g, r'), SlotWord(r'))
  {
    SlotHome(img, g, role, live, r);
    SlotHome(img, g, role, live, r');
    hide Owned, SlotBlock;
  }

  lemma SlotIsParentRef(img: Image, g: Geometry, r: Role)
    ensures SlotBlock(img, g, r) == if Parent(r) == r then InodeBlock(g, r.ino) else Ref(img, g, Parent(r))
  {
  }

  // ---------------------------------------------------------------- what a change leaves alone

  /** The pointer words and pointer blocks of inode i are the same in both images. */
  ghost predicate SamePointers(img: Image, img': Image, g: Geometry, role: Roles, i: nat) {
    && (forall f :: DIRECT <= f < 16 ==> IGet(img', g, i, f) == IGet(img, g, i, f))
    && (forall b :: b in role && role[b].ino == i && !role[b].Data? ==>
          b < |img| && b < |img'| && img'[b] == img[b])
  }

  lemma {:induction false} RefFrame(img: Image, img': Image, g: Geometry, role: Roles, live: set<nat>, r: Role)
    requires Owned(img, g, role, live) && Anchored(role, live, r)
    requires SamePointers(img, img', g, role, r.ino)
    ensures SlotBlock(img', g, r) == SlotBlock(img, g, r) && Ref(img', g, r) == Ref(img, g, r)
    decreases if r.Data? then 2 else if r.Ind2Ind? then 1 else 0
  {
    SlotIsParentRef(img, g, r);
    SlotIsParentRef(img', g, r);
    if Parent(r) != r {
      SlotHome(img, g, role, live, r);
      AnchoredParent(role, live, img, g, r);
      RefFrame(img, img', g, role, live, Parent(r));
      hide Owned, Ref, SlotBlock, Word;
      assert WordAt(img', SlotBlock(img, g, r), SlotWord(r)) == WordAt(img, SlotBlock(img, g, r), SlotWord(r));
      RefAsWord(img, g, r);
      RefAsWord(img', g, r);
    } else {
      hide Owned, Word;
      var field := if r.Data? then DIRECT + r.k else if r.Ind? then INDIRECT else INDIRECT2;
      assert IGet(img', g, r.ino, field) == IGet(img, g, r.ino, field);
    }
  }

  lemma RefAsWord(img: Image, g: Geometry, r: Role)
    ensures Ref(img, g, r) == WordAt(img, SlotBlock(img, g, r), SlotWord(r))
  {
  }

  lemma AnchoredParent(role: Roles, live: set<nat>, img: Image, g: Geometry, r: Role)
    requires Owned(img, g, role, live) && Anchored(role, live, r) && Parent(r) != r
    ensures Parent(r) in role.Values && Anchored(role, live, Parent(r)) && !Parent(r).Data? && Parent(r).ino == r.ino
  {
    hide Ref, SlotBlock;
    var b :| b in role && role[b] == Parent(r);
  }

  /** A change outside the inode table's pointer words and outside all pointer blocks. */
  lemma UntouchedPointers(img: Image, img': Image, g: Geometry, role: Roles, live: set<nat>)
    requires Owned(img, g, role, live) && |img'| == |img|
    requires forall i :: i in live ==> SamePointers(img, img', g, role, i)
    ensures Owned(img', g, role, live)
  {
    hide Ref, SlotBlock, SamePointers, Word;
    forall r | Anchored(role, live, r)
      ensures Ref(img', g, r) == Ref(img, g, r)
    {
      RefFrame(img, img', g, role, live, r);
    }
  }

  // ---------------------------------------------------------------- giving a block a role

  /** Storing the pointer for r leaves every other pointer alone. */
  lemma {:induction false} HookFrame(img: Image, g: Geometry, role: Roles, live: set<nat>, r: Role, b: word, r': Role)
    requires Owned(img, g, role, live) && Anchored(role, live, r) && r !in role.Values
    requires Anchored(role, live, r')
    ensures SlotBlock(Hook(img, g, r, b), g, r') == SlotBlock(img, g, r')
    ensures r' != r ==> Ref(Hook(img, g, r, b), g, r') == Ref(img, g, r')
    ensures r' == r ==> Ref(Hook(img, g, r, b), g, r') == b
    decreases if r'.Data? then 2 else if r'.Ind2Ind? then 1 else 0
  {
    var img' := Hook(img, g, r, b);
    SlotIsParentRef(img, g, r');
    SlotIsParentRef(img', g, r');
    if Parent(r') != r' {
      AnchoredParent(role, live, img, g, r');
      HookFrame(img, g, role, live, r, b, Parent(r'));
    }
    RefAsWord(img, g, r');
    RefAsWord(img', g, r');
    SetWordAtFrame(img, SlotBlock(img, g, r), SlotWord(r), b, SlotBlock(img, g, r'), SlotWord(r'));
    if r' != r {
      SlotsDiffer(img, g, role, live, r, r');
    } else {
      SlotHome(img, g, role, live, r);
      InodeInTable(g, r.ino);
    }
    hide Owned, Ref, SlotBlock, Word;
  }

  lemma HookedBlockIsEmpty(img: Image, g: Geometry, role: Roles, live: set<nat>, r: Role, b: word, r': Role)
    requires Owned(img, g, role, live) && Anchored(role, live, r) && r !in role.Values
    requires b !in role && g.firstdata <= b < g.nblocks && img[b] == ZERO
    requires ValidRole(r') && r'.ino == r.ino && Parent(r') == r && r' != r
    ensures Ref(Hook(img, g, r, b), g, r') == 0
  {
    var img' := Hook(img, g, r, b);
    SlotIsParentRef(img', g, r');
    HookFrame(img, g, role, live, r, b, r);
    SlotHome(img, g, role, live, r);
    assert SlotBlock(img, g, r) != b;
    assert img'[b] == ZERO;
    assert SlotWord(r') < 256;
    ZeroWord(SlotWord(r'));
    RefAsWord(img', g, r');
    hide Owned, Ref, SlotBlock, Word;
  }

  /** Giving an unowned block a role, through its pointer slot, keeps the ownership relation.
      A new pointer block must be empty. */
  lemma HookKeepsOwned(img: Image, g: Geometry, role: Roles, live: set<nat>, r: Role, b: word)
    requires Owned(img, g, role, live) && Anchored(role, live, r) && r !in role.Values
    requires b !in role && g.firstdata <= b < g.nblocks && (!r.Data? ==> img[b] == ZERO)
    ensures Owned(Hook(img, g, r, b), g, role[b := r], live)
    ensures role[b := r].Values == role.Values + {r}
  {
    hide Ref, SlotBlock, Word, Hook;
    var img', role' := Hook(img, g, r, b), role[b := r];
    assert r in role'.Values by { assert role'[b] == r; }
    forall v | v in role.Values
      ensures v in role'.Values
    {
      var c :| c in role && role[c] == v;
      assert role'[c] == v;
    }
    assert role'.Values == role.Values + {r};
    forall c | c in role'
      ensures g.firstdata <= c < g.nblocks && Anchored(role', live, role'[c]) && Ref(img', g, role'[c]) == c
    {
      assert Anchored(role, live, role'[c]);
      HookFrame(img, g, role, live, r, b, role'[c]);
    }
    forall r' | Anchored(role', live, r') && r' !in role'.Values
      ensures Ref(img', g, r') == 0
    {
      if Anchored(role, live, r') {
        HookFrame(img, g, role, live, r, b, r');
      } else {
        HookedBlockIsEmpty(img, g, role, live, r, b, r');
      }
    }
  }

  /** Writing a block nobody owns keeps the ownership relation. */
  lemma FreshBlockKeepsOwned(img: Image, g: Geometry, role: Roles, live: set<nat>, b: nat, content: Block)
    requires Owned(img, g, role, live) && b !in role && g.firstdata <= b < g.nblocks
    ensures Owned(img[b := content], g, role, live)
    ensures forall r :: Anchored(role, live, r) ==> SlotBlock(img[b := content], g, r) == SlotBlock(img, g, r)
  {
    var img' := img[b := content];
    forall i | i in live
      ensures SamePointers(img, img', g, role, i)
    {
      hide Owned, Word;
      InodeInTable(g, i);
    }
    UntouchedPointers(img, img', g, role, live);
    forall r | Anchored(role, live, r)
      ensures SlotBlock(img', g, r) == SlotBlock(img, g, r)
    {
      RefFrame(img, img', g, role, live, r);
      hide SlotBlock, Ref, SamePointers;
    }
  }
}
