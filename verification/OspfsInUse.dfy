/** find_free_inode (lab3/ospfsmod.c) on a disk that ospfsformat has made: the link count of an
    inode is zero exactly if the inode is not in use. */
module OspfsInUse {
  import opened OspfsLayout
  import opened OspfsContents
  import opened OspfsFs
  import opened OspfsCosts
  import opened OspfsSteps
  import opened OspfsFormat
  import opened OspfsHost
  import opened OspfsImage
  import opened OspfsGrow
  import opened OspfsKernel

  // ---------------------------------------------------------------- how many entries fit on a disk

  lemma {:induction false} EntriesBefore(log: seq<Named>, k: nat, d: nat)
    requires k <= |log|
    ensures |Entries(log[..k], d)| <= |Entries(log, d)|
    ensures k < |log| && log[k].dir == d ==> |Entries(log[..k], d)| < |Entries(log, d)|
    decreases |log| - k
  {
    if k < |log| {
      EntriesBefore(log, k + 1, d);
      assert log[..k + 1][..k] == log[..k];
    } else {
      assert log[..k] == log;
    }
  }

  /** The place on the disk of the k-th entry that was made: which eighth of which block. */
  ghost function Place(img: Image, g: Geometry, fs: Fs, k: nat): nat
    requires k < |fs.log|
  {
    Ref(img, g, Data(fs.log[k].dir, |Entries(fs.log[..k], fs.log[k].dir)| / 8)) * 8 + |Entries(fs.log[..k], fs.log[k].dir)| % 8
  }

  lemma PlaceFacts(img: Image, g: Geometry, nextb: nat, nextinode: nat, fs: Fs, k: nat)
    requires FsTree(img, g, nextb, nextinode, fs, -1, {}) && k < |fs.log|
    ensures Place(img, g, fs, k) < 65536 && Place(img, g, fs, k) / 8 in fs.role
    ensures fs.role[Place(img, g, fs, k) / 8] == Data(fs.log[k].dir, |Entries(fs.log[..k], fs.log[k].dir)| / 8)
    ensures Place(img, g, fs, k) % 8 == |Entries(fs.log[..k], fs.log[k].dir)| % 8
  {
    hide FilesOk, LinksOk, Ref, IGet, Entries, EntryOk, BlankInode;
    var d := fs.log[k].dir;
    var p := |Entries(fs.log[..k], d)|;
    EntriesBefore(fs.log, k, d);
    assert DirOk(img, g, fs.role, d, Entries(fs.log, d));
    assert Data(d, p / 8) in fs.role.Values;
    DataRef(img, g, fs.role, Live(fs), d, p / 8);
  }

  lemma PlacesDiffer(img: Image, g: Geometry, nextb: nat, nextinode: nat, fs: Fs, j: nat, k: nat)
    requires FsTree(img, g, nextb, nextinode, fs, -1, {}) && j < k < |fs.log|
    ensures Place(img, g, fs, j) != Place(img, g, fs, k)
  {
    hide FsTree, Entries;
    PlaceFacts(img, g, nextb, nextinode, fs, j);
    PlaceFacts(img, g, nextb, nextinode, fs, k);
    if fs.log[j].dir == fs.log[k].dir {
      EntriesBefore(fs.log[..k], j, fs.log[k].dir);
      assert fs.log[..k][..j] == fs.log[..j];
    }
    hide Place;
  }

  ghost function Places(img: Image, g: Geometry, fs: Fs, n: nat): set<nat>
    requires n <= |fs.log|
  {
    if n == 0 then {} else Places(img, g, fs, n - 1) + {Place(img, g, fs, n - 1)}
  }

  lemma {:induction false} PlacesCount(img: Image, g: Geometry, nextb: nat, nextinode: nat, fs: Fs, n: nat)
    requires FsTree(img, g, nextb, nextinode, fs, -1, {}) && n <= |fs.log|
    ensures |Places(img, g, fs, n)| == n
    ensures forall x :: x in Places(img, g, fs, n) ==> x < 65536 && exists k: nat :: k < n && Place(img, g, fs, k) == x
  {
    hide FsTree, Place;
    if n > 0 {
      PlacesCount(img, g, nextb, nextinode, fs, n - 1);
      PlaceFacts(img, g, nextb, nextinode, fs, n - 1);
      if Place(img, g, fs, n - 1) in Places(img, g, fs, n - 1) {
        var k: nat :| k < n - 1 && Place(img, g, fs, k) == Place(img, g, fs, n - 1);
        PlacesDiffer(img, g, nextb, nextinode, fs, k, n - 1);
      }
    }
  }

  /** No disk holds more than 65536 directory entries, so link counts cannot wrap around. */
  lemma FewEntries(img: Image, g: Geometry, nextb: nat, nextinode: nat, fs: Fs)
    requires FsTree(img, g, nextb, nextinode, fs, -1, {})
    ensures |fs.log| <= 65536
  {
    hide FsTree, Place;
    PlacesCount(img, g, nextb, nextinode, fs, |fs.log|);
    SubsetSize(Places(img, g, fs, |fs.log|), UpTo(65536));
  }

  // ---------------------------------------------------------------- every inode has a name

  lemma {:induction false} CountBounds(log: seq<Named>, dirs: set<nat>, i: nat)
    ensures CountNamed(log, i) <= |log| && CountSubdirs(log, dirs, i) <= |log|
    ensures CountNamed(log, i) > 0 <==> exists k :: 0 <= k < |log| && log[k].entry.ino == i
  {
    if log != [] {
      var log' := log[..|log| - 1];
      CountBounds(log', dirs, i);
      if CountNamed(log', i) > 0 {
        var k :| 0 <= k < |log'| && log'[k].entry.ino == i;
        assert log[k].entry.ino == i;
      }
      if k :| 0 <= k < |log| && log[k].entry.ino == i {
        assert k < |log'| ==> log'[k].entry.ino == i;
      }
    }
  }

  ghost predicate IsNamed(b: Built, i: nat) {
    exists k :: 0 <= k < |b.fs.log| && b.fs.log[k].entry.ino == i
  }

  /** Every inode but the first two has been made for a directory entry. */
  ghost predicate AllNamed(b: Built) {
    2 <= b.next && forall i: nat :: 2 <= i < b.next ==> IsNamed(b, i)
  }

  lemma EnterNames(b: Built, d: nat, name: seq<byte>, ino: nat)
    ensures IsNamed(Enter(b, d, name, ino), ino)
    ensures forall i: nat :: IsNamed(b, i) ==> IsNamed(Enter(b, d, name, ino), i)
  {
    var c := Enter(b, d, name, ino);
    assert c.fs.log[|b.fs.log|].entry.ino == ino;
    forall i: nat | IsNamed(b, i)
      ensures IsNamed(c, i)
    {
      var k :| 0 <= k < |b.fs.log| && b.fs.log[k].entry.ino == i;
      assert c.fs.log[k].entry.ino == i;
    }
  }

  /** Entering a name for the next inode, or for one that is there already. */
  lemma OneNamed(b: Built, c: Built, d: nat, name: seq<byte>, ino: nat)
    requires AllNamed(b) && c.fs.log == Enter(b, d, name, ino).fs.log && (c.next == b.next || (c.next == b.next + 1 && ino == b.next))
    ensures AllNamed(c)
  {
    EnterNames(b, d, name, ino);
    forall i: nat | 2 <= i < c.next
      ensures IsNamed(c, i)
    {
      assert IsNamed(Enter(b, d, name, ino), i);
    }
  }

  lemma {:induction false} ItemsNamed(b: Built, d: nat, items: seq<Host>)
    requires AllNamed(b)
    ensures AllNamed(AddItems(b, d, items))
    decreases items
  {
    hide AllNamed;
    if items != [] {
      if !Copied(items[0]) {
        ItemsNamed(b, d, items[1..]);
      } else {
        match items[0]
        case HostFile(name, host, bytes) =>
          OneNamed(b, AddFile(b, d, name, host, bytes), d, name, if Known(b, host) != 0 then Known(b, host) else b.next);
          ItemsNamed(AddFile(b, d, name, host, bytes), d, items[1..]);
        case HostLink(name, host, target) =>
          OneNamed(b, AddLink(b, d, name, host, target), d, name, if Known(b, host) != 0 then Known(b, host) else b.next);
          ItemsNamed(AddLink(b, d, name, host, target), d, items[1..]);
        case HostDir(name, its) =>
          OneNamed(b, AddDir(b, d, name), d, name, b.next);
          ItemsNamed(AddDir(b, d, name), b.next, its);
          ItemsNamed(AddItems(AddDir(b, d, name), b.next, its), d, items[1..]);
      }
    }
  }

  lemma WantedNamed(items: seq<Host>, links: seq<Host>)
    ensures AllNamed(Wanted(items, links))
  {
    ItemsNamed(RootFs(), ROOT_INO, items);
    ItemsNamed(AddItems(RootFs(), ROOT_INO, items), ROOT_INO, links);
  }

  /** On a formatted disk the inodes with link count zero are those that no file, directory or
      link uses: what find_free_inode returns is never in use. */
  lemma FreeInodeExact(img: Image, g: Geometry, nextb: nat, fs: Fs, items: seq<Host>, links: seq<Host>, i: nat)
    requires Formatted(img, g, nextb, Wanted(items, links).next, fs) && fs.log == Wanted(items, links).fs.log
    requires 2 <= i < g.ninodes
    ensures IGet(img, g, i, NLINK) == 0 <==> i !in fs.files && i !in fs.dirs && i !in fs.links
    ensures IGet(img, g, i, NLINK) == 0 ==> forall k :: 0 <= k < |fs.log| ==> fs.log[k].entry.ino != i
  {
    hide FilesOk, DirsOk, LinksOk, Owned, FreeExactly, IGet, Wanted, AddItems, BlankInode;
    var next := Wanted(items, links).next;
    FewEntries(img, g, nextb, next, fs);
    CountBounds(fs.log, fs.dirs, i);
    WantedNamed(items, links);
    if i < next {
      assert IsNamed(Wanted(items, links), i);
    } else {
      UnusedNlink(img, g, nextb, next, fs, i);
    }
  }

  lemma UnusedNlink(img: Image, g: Geometry, nextb: nat, nextinode: nat, fs: Fs, i: nat)
    requires FsTree(img, g, nextb, nextinode, fs, -1, {}) && nextinode <= i < g.ninodes
    ensures IGet(img, g, i, NLINK) == 0
  {
    hide FilesOk, DirsOk, LinksOk, Ref;
    InodeInTable(g, i);
    BlankWords(img, g, i, NLINK);
  }

  lemma FirstFree(img: Image, g: Geometry, nextb: nat, fs: Fs, items: seq<Host>, links: seq<Host>, i: nat)
    requires Formatted(img, g, nextb, Wanted(items, links).next, fs) && fs.log == Wanted(items, links).fs.log
    requires 2 <= i < g.ninodes
    ensures IGet(img, g, i, NLINK) == 0 <==> Wanted(items, links).next <= i
    ensures 2 <= Wanted(items, links).next <= g.ninodes
  {
    FreeInodeExact(img, g, nextb, fs, items, links, i);
    WantedNamed(items, links);
    hide FilesOk, DirsOk, LinksOk, Owned, FreeExactly, IGet, Wanted, AddItems, BlankInode, NlinksOk, IsNamed;
  }

  /** The disk is formatted and mounted: find_free_inode returns the first inode that the run has
      not given out, and zero exactly if there is none. */
  method FormatMountFree(nblocks: nat, ninodes: nat, items: seq<Host>, links: seq<Host>) returns (formatted: bool, i: nat)
    requires ValidArguments(nblocks, ninodes) && HostNames(items) && LinkOptions(links)
    ensures Fits(nblocks, ninodes, items, links) ==> formatted
    ensures formatted ==> i == if Wanted(items, links).next < ninodes then Wanted(items, links).next else 0
  {
    hide Formatted, Mounted, AddItems, Wanted, Fits, NamesFit, RunDemand, IGet;
    i := 0;
    var r, disk;
    ghost var nextb, fs;
    r, disk, nextb, fs := Format(nblocks, ninodes, items, links);
    formatted := r.Done?;
    if formatted {
      ghost var next := Wanted(items, links).next;
      ghost var g := GeometryOf(nblocks, ninodes);
      FormattedMounts(disk, g, nextb, next, fs);
      var k := new Kernel(disk, g, next, fs);
      i := k.FindFreeInode();
      forall j: nat | 2 <= j < ninodes
        ensures IGet(disk, g, j, NLINK) == 0 <==> next <= j
      {
        FirstFree(disk, g, nextb, fs, items, links, j);
      }
      NextIsTwo(items, links);
      if next < ninodes {
        assert IGet(k.Img(), k.g, next, NLINK) == 0;
      }
    }
  }

  lemma NextIsTwo(items: seq<Host>, links: seq<Host>)
    ensures 2 <= Wanted(items, links).next
  {
    WantedNamed(items, links);
    hide IsNamed, Wanted;
  }
}
