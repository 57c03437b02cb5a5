/** How many blocks a run of ospfsformat needs (lab3/ospfsformat.c: storeblk, allocdirentry,
    writefile). */
module OspfsCosts {
  import opened OspfsLayout
  import opened OspfsContents
  import opened OspfsFs

  /** The pointer blocks that storeblk has to make for the n-th block of a file. */
  function PointerCost(n: nat): nat {
    if n == 10 then 1 else if n == 266 then 2 else if n > 266 && (n - 266) % 256 == 0 then 1 else 0
  }

  /** Those of them below the doubly indirect block. */
  function LeafCost(n: nat): nat {
    if n >= 266 && (n - 266) % 256 == 0 then 1 else 0
  }

  /** All the blocks that go into a file of n data blocks. */
  function Blocks(n: nat): nat {
    if n == 0 then 0 else Blocks(n - 1) + 1 + PointerCost(n - 1)
  }

  /** One indirect block, one doubly indirect block, and an indirect block for every 256 blocks
      under it. */
  lemma {:induction false} BlocksExact(n: nat)
    ensures Blocks(n) == n + (if n > 10 then 1 else 0) + if n > 266 then 1 + (n - 266 + 255) / 256 else 0
  {
    if n > 0 {
      BlocksExact(n - 1);
    }
  }

  lemma {:induction false} BlocksGrow(m: nat, n: nat)
    requires m <= n
    ensures Blocks(m) <= Blocks(n)
  {
    if m < n {
      BlocksGrow(m, n - 1);
    }
  }

  /** The blocks that allocdirentry takes for the k-th entry of a directory. */
  function EntryCost(k: nat): nat {
    if k % 8 == 0 then 1 + PointerCost(k / 8) else 0
  }

  /** The blocks that n entries take. */
  function EntryCosts(n: nat): nat {
    if n == 0 then 0 else EntryCosts(n - 1) + EntryCost(n - 1)
  }

  /** Eight entries go into a block. */
  lemma {:induction false} EntryCostsExact(n: nat)
    ensures EntryCosts(n) == Blocks((n + 7) / 8)
  {
    if n > 0 {
      EntryCostsExact(n - 1);
      assert (n - 1) % 8 != 0 ==> (n + 7) / 8 == (n - 1 + 7) / 8;
      assert (n - 1) % 8 == 0 ==> (n + 7) / 8 == (n - 1) / 8 + 1 && (n - 1 + 7) / 8 == (n - 1) / 8;
    }
  }

  /** A file of n blocks has all the pointer blocks it needs; only its n-th block may take more. */
  lemma PointersOwned(img: Image, g: Geometry, role: Roles, live: set<nat>, i: nat, n: nat)
    requires Owned(img, g, role, live) && HasBlocks(role, i, n)
    ensures n > 10 ==> Ind(i) in role.Values
    ensures n > 266 ==> Ind2(i) in role.Values
    ensures n > 266 && (n - 266) % 256 != 0 ==> Ind2Ind(i, (n - 266) / 256) in role.Values
  {
    hide Ref;
    if n > 10 {
      assert Data(i, 10) in role.Values && Data(i, n - 1) in role.Values;
      var a :| a in role && role[a] == Data(i, 10);
      assert Anchored(role, live, role[a]);
      var b :| b in role && role[b] == Data(i, n - 1);
      assert Anchored(role, live, role[b]);
      if n > 266 {
        var c :| c in role && role[c] == Parent(Data(i, n - 1));
        assert Anchored(role, live, role[c]);
      }
    }
  }

  lemma PointersThere(img: Image, g: Geometry, nextb: nat, nextinode: nat, fs: Fs, open: int, pending: set<nat>, i: nat, n: nat)
    requires FsCore(img, g, nextb, nextinode, fs, open, pending) && HasBlocks(fs.role, i, n)
    ensures 10 < n < 266 ==> Ind(i) in fs.role.Values
    ensures n > 266 ==> Ind2(i) in fs.role.Values
    ensures n > 266 && PointerCost(n) == 0 ==> Ind2Ind(i, (n - 266) / 256) in fs.role.Values
  {
    hide FilesOk, DirsOk, LinksOk, InodesOk, LowOk, Owned;
    PointersOwned(img, g, fs.role, Live(fs), i, n);
  }

  // ---------------------------------------------------------------- counting

  function UpTo(n: nat): (s: set<nat>)
    ensures |s| == n && forall x: nat :: x in s <==> x < n
  {
    if n == 0 then {} else UpTo(n - 1) + {n - 1}
  }

  lemma {:induction false} SubsetSize(a: set<nat>, b: set<nat>)
    requires a <= b
    ensures |a| <= |b|
  {
    if a != {} {
      var x :| x in a;
      SubsetSize(a - {x}, b - {x});
    }
  }

  ghost predicate IsBlockIn(role: Roles, keys: set<nat>, i: nat, k: nat) {
    exists b :: b in keys && b in role && role[b] == Data(i, k)
  }

  lemma {:induction false} BlocksDiffer(role: Roles, keys: set<nat>, i: nat, n: nat)
    requires forall k: nat :: k < n ==> IsBlockIn(role, keys, i, k)
    ensures n <= |keys|
    decreases n
  {
    if n > 0 {
      assert IsBlockIn(role, keys, i, n - 1);
      var b :| b in keys && b in role && role[b] == Data(i, n - 1);
      forall k: nat | k < n - 1
        ensures IsBlockIn(role, keys - {b}, i, k)
      {
        assert IsBlockIn(role, keys, i, k);
        var c :| c in keys && c in role && role[c] == Data(i, k);
      }
      BlocksDiffer(role, keys - {b}, i, n - 1);
    }
  }

  /** A file has no more blocks than the disk. */
  lemma FewBlocks(img: Image, g: Geometry, nextb: nat, nextinode: nat, fs: Fs, open: int, pending: set<nat>, i: nat, n: nat)
    requires FsCore(img, g, nextb, nextinode, fs, open, pending) && HasBlocks(fs.role, i, n)
    ensures n <= g.nblocks <= 8192
  {
    hide FilesOk, DirsOk, LinksOk, InodesOk, LowOk, Owned;
    FewOwned(img, g, fs.role, Live(fs), i, n);
  }

  lemma FewOwned(img: Image, g: Geometry, role: Roles, live: set<nat>, i: nat, n: nat)
    requires Owned(img, g, role, live) && HasBlocks(role, i, n)
    ensures n <= g.nblocks <= 8192
  {
    hide Ref;
    forall k: nat | k < n
      ensures IsBlockIn(role, role.Keys, i, k)
    {
      assert Data(i, k) in role.Values;
    }
    BlocksDiffer(role, role.Keys, i, n);
    SubsetSize(role.Keys, UpTo(g.nblocks));
  }
}
