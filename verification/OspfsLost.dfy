/** A file of 266 blocks that ospfsformat has made cannot grow: add_block loses the next block
    (lab3/ospfsmod.c:793-805). */
module OspfsLost {
  import opened OspfsLayout
  import opened OspfsContents
  import opened OspfsBits
  import opened BlockCache
  import opened OspfsFs
  import opened OspfsCosts
  import opened OspfsSteps
  import opened OspfsFormat
  import opened OspfsHost
  import opened OspfsImage
  import opened OspfsGrow
  import opened OspfsKernel

  // ---------------------------------------------------------------- counting the blocks of a disk

  lemma {:induction false} RolesCount(role: Roles, wanted: set<Role>)
    requires wanted <= role.Values
    ensures |wanted| <= |role.Keys|
    decreases |wanted|
  {
    if r :| r in wanted {
      var b :| b in role && role[b] == r;
      var role' := role - {b};
      forall x | x in wanted - {r}
        ensures x in role'.Values
      {
        var c :| c in role && role[c] == x;
        assert role'[c] == x;
      }
      RolesCount(role', wanted - {r});
      assert role.Keys == role'.Keys + {b};
    }
  }

  function DataRoles(i: nat, n: nat): (s: set<Role>)
    ensures |s| == n && forall r :: r in s <==> r.Data? && r.ino == i && r.k < n
  {
    if n == 0 then {} else DataRoles(i, n - 1) + {Data(i, n - 1)}
  }

  lemma Between(lo: nat, hi: nat, s: set<nat>)
    requires lo <= hi && forall b :: b in s ==> lo <= b < hi
    ensures |s| <= hi - lo
  {
    SubsetSize(UpTo(lo), UpTo(hi));
    assert UpTo(lo) !! s && UpTo(lo) + s <= UpTo(hi);
    SubsetSize(UpTo(lo) + s, UpTo(hi));
    assert |UpTo(lo) + s| == |UpTo(lo)| + |s|;
  }

  lemma ThreeMore(i: nat, d: nat, r: Role)
    requires i != d && r.Ind2?
    ensures |DataRoles(i, 266) + {Ind(i), Data(d, 0), r}| == 269 && |DataRoles(i, 266) + {Ind(i), Data(d, 0)}| == 268
  {
    var s := DataRoles(i, 266);
    assert Ind(i) !in s && Data(d, 0) !in s + {Ind(i)} && r !in s + {Ind(i)} + {Data(d, 0)};
    assert s + {Ind(i)} + {Data(d, 0)} == s + {Ind(i), Data(d, 0)} && s + {Ind(i)} + {Data(d, 0)} + {r} == s + {Ind(i), Data(d, 0), r};
  }

  /** If the file and the directory take up the disk's blocks in use, there is no further one. */
  lemma NoFurther(img: Image, g: Geometry, nextb: nat, nextinode: nat, fs: Fs, i: nat, d: nat, r: Role)
    requires FsTree(img, g, nextb, nextinode, fs, -1, {}) && nextb <= g.firstdata + 268 && i != d
    requires HasBlocks(fs.role, i, 266) && Data(d, 0) in fs.role.Values && r.Ind2?
    ensures r !in fs.role.Values && nextb == g.firstdata + 268
  {
    hide FilesOk, DirsOk, LinksOk, InodesOk, Owned;
    PointersOwned(img, g, fs.role, Live(fs), i, 266);
    var wanted := DataRoles(i, 266) + {Ind(i), Data(d, 0), r};
    ThreeMore(i, d, r);
    forall x | x in wanted && x != r
      ensures x in fs.role.Values
    {
      assert x.Data? && x.ino == i && x.k < 266 ==> x == Data(i, x.k);
    }
    hide HasBlocks;
    Between(g.firstdata, nextb, fs.role.Keys);
    RolesCount(fs.role, DataRoles(i, 266) + {Ind(i), Data(d, 0)});
    if r in fs.role.Values {
      RolesCount(fs.role, wanted);
    }
  }

  // ---------------------------------------------------------------- disks with one file

  const NINODES := 16

  /** A host file of exactly 266 blocks. */
  const BIG := HostFile([102], 0, Zeros(266 * 1024))

  lemma BigAdded()
    ensures AddItems(RootFs(), ROOT_INO, [BIG]) == AddFile(RootFs(), ROOT_INO, [102], 0, BIG.bytes) == Wanted([BIG], [])
    ensures AddFile(RootFs(), ROOT_INO, [102], 0, BIG.bytes).next == 3
  {
    assert [BIG][1..] == [];
  }

  lemma BigDemand()
    ensures FileDemand(RootFs(), ROOT_INO, [102], 0, BIG.bytes) == Demand(5, 268, 1, 3, true)
  {
    BlocksExact(266);
    assert |Entries(RootFs().fs.log, ROOT_INO)| == 0;
    assert Nblocks(|BIG.bytes|) == 266;
    hide Blocks;
  }

  lemma BigItems()
    ensures ItemsDemand(RootFs(), ROOT_INO, [BIG]) == Both(Demand(5, 268, 1, 3, true), Demand(0, 0, 0, 3, true))
    ensures ItemsDemand(AddItems(RootFs(), ROOT_INO, [BIG]), ROOT_INO, []) == Demand(0, 0, 0, 3, true)
  {
    BigDemand();
    BigAdded();
    hide FileDemand, AddFile;
    assert [BIG][1..] == [];
  }

  /** What formatting a disk with this one file takes. */
  lemma BigFits(nblocks: nat)
    requires 273 <= nblocks <= 8192
    ensures ValidArguments(nblocks, NINODES) && HostNames([BIG]) && LinkOptions([]) && GeometryOf(nblocks, NINODES).firstdata == 4
    ensures Fits(nblocks, NINODES, [BIG], []) && RunDemand([BIG], []).blocks == 268
    ensures Wanted([BIG], []).next == 3
    ensures Wanted([BIG], []).fs == AddFile(RootFs(), ROOT_INO, [102], 0, BIG.bytes).fs
  {
    BigItems();
    BigAdded();
    hide ItemsDemand, AddItems, Wanted, AddFile;
    assert [BIG][1..] == [];
  }

  /** The file is inode 2, and its directory entry takes the first block of the root. */
  lemma BigImage(disk: Image, g: Geometry, nextb: nat, fs: Fs)
    requires Formatted(disk, g, nextb, 3, fs) && fs.(role := map[]) == Wanted([BIG], []).fs
    ensures 2 in fs.files && fs.files[2] == BIG.bytes && HasBlocks(fs.role, 2, 266) && Data(1, 0) in fs.role.Values
  {
    BigFits(1000);
    hide Owned, IGet, Ref, BlankInode, InodesOk, LinksOk, NlinksOk, FreeExactly, SuperOk, BlocksOk, Word, Wanted, Fits, RunDemand, EntryOk, ByteOf;
    assert fs.files == map[0 := []][2 := BIG.bytes] && fs.dirs == {ROOT_INO} && fs.log == [Named(ROOT_INO, Entry(2, [102]))];
    assert FileOk(disk, g, fs.role, 2, fs.files[2]);
    assert DirOk(disk, g, fs.role, 1, Entries(fs.log, 1));
    assert fs.log[..0] == [];
    assert |Entries(fs.log, 1)| == 1;
  }

  /** A disk of any size is formatted with this file, which takes 272 blocks in all. */
  method BigDisk(nblocks: nat) returns (k: Kernel)
    requires 273 <= nblocks <= 8192
    ensures k.Valid() && k.fs.(role := map[]) == Wanted([BIG], []).fs && 2 in k.fs.files && k.fs.files[2] == BIG.bytes
    ensures exists nextb: nat :: Formatted(k.Img(), GeometryOf(nblocks, NINODES), nextb, 3, k.fs)
    ensures |FreeBlocks(k.Img())| == nblocks - 272 && Ind2(2) !in k.fs.role.Values && !k.Placed(2, 266)
    ensures fresh(k) && fresh(k.data)
  {
    hide Formatted, Mounted, Wanted, Fits, RunDemand, NamesFit, IGet, Ref;
    BigFits(nblocks);
    var s, disk;
    ghost var nextb, fs;
    s, disk, nextb, fs := Format(nblocks, NINODES, [BIG], []);
    ghost var g := GeometryOf(nblocks, NINODES);
    FormattedMounts(disk, g, nextb, 3, fs);
    k := new Kernel(disk, g, 3, fs);
    BigImage(disk, g, nextb, fs);
    NothingDeep(disk, g, nextb, fs);
    FreeCount(disk, g, nextb, fs);
  }

  /** Appending any bytes to it: with three free blocks or more the new block and its pointer block are
      lost; with two the inode keeps a pointer to a free block; with one the source reports that there is
      no space. */
  method BigFileCannotGrow(k: Kernel, bytes: seq<byte>) returns (retval: int, r: Outcome, ghost lost: set<nat>)
    requires k.Valid() && 2 in k.fs.files && k.fs.files[2] == BIG.bytes && Ind2(2) !in k.fs.role.Values && !k.Placed(2, 266)
    requires 0 < |bytes| && 266 * 1024 + |bytes| + 1023 < 0x1_0000_0000
    modifies k.data, k`fs
    ensures r == Lost(0) <==> old(HasFree(k.Img(), 3))
    ensures r == NoSpace <==> !old(HasFree(k.Img(), 2))
    ensures r == Lost(0) || r == NoSpace || r == Dangling(0)
    ensures r == Lost(0) ==> k.IsLost(2, 266, BIG.bytes, 267 * 1024, lost) && k.fs == old(k.fs).(role := k.fs.role)
    ensures r == Dangling(0) ==> k.Dangles(2) && retval == -28
  {
    hide Mounted, IGet, HasFree, Ref, Kernel.Holding, Kernel.IsLost, Kernel.Dangles;
    assert k.Needed(2, 266) == 2;
    var fpos';
    retval, fpos', r, lost := k.Write(2, true, bytes, 0);
  }

  /** From the formatter to the append, on disks of every size. */
  method BigRun(nblocks: nat, bytes: seq<byte>) returns (k: Kernel, retval: int, r: Outcome, ghost lost: set<nat>)
    requires 273 <= nblocks <= 8192 && 0 < |bytes| && 266 * 1024 + |bytes| + 1023 < 0x1_0000_0000
    ensures r == if nblocks >= 275 then Lost(0) else if nblocks == 274 then Dangling(0) else NoSpace
    ensures nblocks >= 275 ==> k.fs.(role := map[]) == Wanted([BIG], []).fs && k.IsLost(2, 266, BIG.bytes, 267 * 1024, lost)
    ensures nblocks == 274 ==> k.Dangles(2) && retval == -28
  {
    hide Formatted, Mounted, Wanted, IGet, Ref, FreeBlocks, Kernel.Img, Kernel.Valid, Kernel.Placed, Kernel.Holding, Kernel.IsLost, Kernel.Dangles;
    k := BigDisk(nblocks);
    retval, r, lost := BigFileCannotGrow(k, bytes);
  }

  lemma NothingDeep(disk: Image, g: Geometry, nextb: nat, fs: Fs)
    requires Formatted(disk, g, nextb, 3, fs) && nextb <= g.firstdata + 268
    requires HasBlocks(fs.role, 2, 266) && Data(1, 0) in fs.role.Values
    ensures Parent(Data(2, 266)) !in fs.role.Values && Ind2(2) !in fs.role.Values && nextb == g.firstdata + 268
  {
    hide FilesOk, DirsOk, LinksOk, InodesOk, NlinksOk, HasBlocks, Ref;
    NoFurther(disk, g, nextb, 3, fs, 2, 1, Ind2(2));
  }

  lemma FreeCount(disk: Image, g: Geometry, nextb: nat, fs: Fs)
    requires Formatted(disk, g, nextb, 3, fs) && nextb <= g.nblocks <= 8192
    ensures |FreeBlocks(disk)| == g.nblocks - nextb
  {
    hide FsTree, NlinksOk, IsFree;
    assert UpTo(nextb) + FreeBlocks(disk) == UpTo(g.nblocks) && UpTo(nextb) !! FreeBlocks(disk);
    assert |UpTo(nextb) + FreeBlocks(disk)| == |UpTo(nextb)| + |FreeBlocks(disk)|;
  }
}
