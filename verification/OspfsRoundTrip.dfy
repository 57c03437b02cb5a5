/** Formatting and then mounting: what the kernel module finds on a disk that ospfsformat has
    made is what the host had. */
module OspfsRoundTrip {
  import opened OspfsLayout
  import opened OspfsContents
  import opened OspfsFs
  import opened OspfsSteps
  import opened OspfsFormat
  import opened OspfsHost
  import opened OspfsImage
  import opened OspfsTree
  import opened OspfsGrow
  import opened OspfsKernel

  datatype Option<T> = None | Some(value: T)

  /** Every regular file is copied, links of up to 51 bytes are, and so are all directories but ., .., CVS,
      .svn and .git. */
  predicate Present(h: Host) {
    match h
    case HostFile(_, _, _) => true
    case HostLink(_, _, target) => |target| <= 51
    case HostDir(name, _) => name !in {[46], [46, 46], [67, 86, 83], [46, 115, 118, 110], [46, 103, 105, 116]}
    case HostOther(_) => false
  }

  lemma PresentExact(h: Host)
    ensures Present(h) <==> Copied(h)
  {
  }

  /** The first item with a name among those that are copied. */
  function First(items: seq<Host>, name: seq<byte>): Option<Host> {
    if items == [] then None
    else if Present(items[0]) && items[0].name == name then Some(items[0])
    else First(items[1..], name)
  }

  /** What a path leads to on the host. */
  function HostAt(items: seq<Host>, path: seq<seq<byte>>): Option<Host>
    requires path != []
    decreases path
  {
    if |path| == 1 || First(items, path[0]).None? then First(items, path[0])
    else if First(items, path[0]).value.HostDir? then HostAt(First(items, path[0]).value.items, path[1..])
    else None
  }

  /** The host has this item at this path. */
  ghost predicate HasAt(items: seq<Host>, path: seq<seq<byte>>, h: Host)
    decreases path
  {
    && path != []
    && if |path| == 1 then h in items && h.name == path[0]
       else exists dir :: dir in items && dir.HostDir? && dir.name == path[0] && HasAt(dir.items, path[1..], h)
  }

  /** No two items of a directory have the same name. */
  ghost predicate NamesDiffer(items: seq<Host>)
    decreases items
  {
    && (forall i, j :: 0 <= i < j < |items| ==> items[i].name != items[j].name)
    && forall i :: 0 <= i < |items| && items[i].HostDir? ==> NamesDiffer(items[i].items)
  }

  lemma {:induction false} FirstIs(items: seq<Host>, k: nat)
    requires k < |items| && Present(items[k]) && forall j :: 0 <= j < k ==> items[j].name != items[k].name
    ensures First(items, items[k].name) == Some(items[k])
  {
    if k > 0 {
      FirstIs(items[1..], k - 1);
    }
  }

  /** Nothing is passed over but what the text of HostAt names: a path of a regular file or a directory that
      does not go through ., .., CVS, .svn or .git leads to that file or directory. */
  lemma {:induction false} NothingElseSkipped(items: seq<Host>, path: seq<seq<byte>>, h: Host)
    requires NamesDiffer(items) && HasAt(items, path, h) && (h.HostFile? || h.HostDir?)
    requires forall k :: 0 <= k < |path| ==> path[k] !in {[46], [46, 46], [67, 86, 83], [46, 115, 118, 110], [46, 103, 105, 116]}
    ensures HostAt(items, path) == Some(h)
    decreases path
  {
    if |path| == 1 {
      var k :| 0 <= k < |items| && items[k] == h;
      FirstIs(items, k);
    } else {
      var dir :| dir in items && dir.HostDir? && dir.name == path[0] && HasAt(dir.items, path[1..], h);
      var k :| 0 <= k < |items| && items[k] == dir;
      FirstIs(items, k);
      NothingElseSkipped(dir.items, path[1..], h);
    }
  }

  lemma NothingSkipped(items: seq<Host>, path: seq<seq<byte>>)
    requires path != []
    ensures NamesDiffer(items) &&
            (forall k :: 0 <= k < |path| ==> path[k] !in {[46], [46, 46], [67, 86, 83], [46, 115, 118, 110], [46, 103, 105, 116]}) ==>
              forall h :: HasAt(items, path, h) && (h.HostFile? || h.HostDir?) ==> HostAt(items, path) == Some(h)
  {
    hide HostAt, HasAt, NamesDiffer;
    if NamesDiffer(items) &&
       (forall k :: 0 <= k < |path| ==> path[k] !in {[46], [46, 46], [67, 86, 83], [46, 115, 118, 110], [46, 103, 105, 116]}) {
      forall h | HasAt(items, path, h) && (h.HostFile? || h.HostDir?)
        ensures HostAt(items, path) == Some(h)
      {
        NothingElseSkipped(items, path, h);
      }
    }
  }

  function FirstEntry(ents: seq<Entry>, name: seq<byte>): Option<nat> {
    if ents == [] then None
    else if ents[0].name == name then Some(ents[0].ino)
    else FirstEntry(ents[1..], name)
  }

  /** What a path leads to in the image. */
  function InodeAt(fs: Fs, d: nat, path: seq<seq<byte>>): Option<nat>
    decreases path
  {
    if path == [] then Some(d)
    else if d !in fs.dirs || FirstEntry(Entries(fs.log, d), path[0]).None? then None
    else InodeAt(fs, FirstEntry(Entries(fs.log, d), path[0]).value, path[1..])
  }

  /** Inode i is the copy of h. */
  ghost predicate CopyOf(fs: Fs, i: nat, h: Host, lo: nat) {
    match h
    case HostFile(_, _, bytes) => i in fs.files && fs.files[i] == bytes
    case HostLink(_, _, target) => i in fs.links && fs.links[i] == target
    case HostDir(_, its) => i in fs.dirs && Mirrors(fs, Entries(fs.log, i), its, lo)
    case HostOther(_) => false
  }

  lemma {:induction false} FirstMirrors(fs: Fs, ents: seq<Entry>, items: seq<Host>, lo: nat, name: seq<byte>)
    requires Mirrors(fs, ents, items, lo)
    ensures First(items, name).Some? <==> FirstEntry(ents, name).Some?
    ensures First(items, name).Some? ==> CopyOf(fs, FirstEntry(ents, name).value, First(items, name).value, lo)
    decreases items
  {
    if items != [] {
      PresentExact(items[0]);
      if !Copied(items[0]) {
        FirstMirrors(fs, ents, items[1..], lo, name);
      } else if items[0].name != name {
        FirstMirrors(fs, ents[1..], items[1..], lo, name);
      }
    }
  }

  /** Files, directories and links are different inodes. */
  ghost predicate Kinds(fs: Fs) {
    fs.files.Keys !! fs.dirs && fs.dirs !! fs.links.Keys && fs.files.Keys !! fs.links.Keys
  }

  /** A path leads to something in the image exactly if it does on the host, and then to a copy
      of the same thing. */
  lemma {:induction false} PathMirrors(fs: Fs, d: nat, items: seq<Host>, lo: nat, path: seq<seq<byte>>)
    requires Kinds(fs) && d in fs.dirs && Mirrors(fs, Entries(fs.log, d), items, lo) && path != []
    ensures HostAt(items, path).Some? <==> InodeAt(fs, d, path).Some?
    ensures HostAt(items, path).Some? ==> CopyOf(fs, InodeAt(fs, d, path).value, HostAt(items, path).value, lo)
    decreases path
  {
    hide Mirrors;
    FirstMirrors(fs, Entries(fs.log, d), items, lo, path[0]);
    if First(items, path[0]).Some? {
      var h, i := First(items, path[0]).value, FirstEntry(Entries(fs.log, d), path[0]).value;
      if |path| == 1 {
        assert InodeAt(fs, i, path[1..]) == Some(i);
      } else if h.HostDir? {
        PathMirrors(fs, i, h.items, lo, path[1..]);
      } else {
        assert i !in fs.dirs;
      }
    }
  }

  // ---------------------------------------------------------------- the mounted disk

  lemma KindsOf(img: Image, g: Geometry, nextinode: nat, fs: Fs)
    requires Mounted(img, g, nextinode, fs, -1, {})
    ensures Kinds(fs)
    ensures forall k :: 0 <= k < |fs.log| ==> fs.log[k].entry.ino < nextinode
    ensures forall i: nat :: i < nextinode ==> i in fs.files || i in fs.dirs || i in fs.links
  {
    hide Owned, FilesOk, DirsOk, LinksOk, FreeOk, SuperOk, BlankInode;
  }

  lemma TypeExact(img: Image, g: Geometry, nextinode: nat, fs: Fs, i: nat)
    requires Mounted(img, g, nextinode, fs, -1, {}) && i < nextinode
    ensures IGet(img, g, i, FTYPE) == FTYPE_DIR <==> i in fs.dirs
    ensures IGet(img, g, i, FTYPE) == FTYPE_REG <==> i in fs.files
  {
    KindsOf(img, g, nextinode, fs);
    hide Owned, FreeOk, SuperOk, InodesOk, IGet, Body, DirBody;
  }

  lemma {:induction false} FirstEntryAt(ents: seq<Entry>, p: nat, name: seq<byte>)
    requires p <= |ents| && (forall q :: 0 <= q < p ==> ents[q].name != name) && (p < |ents| ==> ents[p].name == name)
    ensures FirstEntry(ents, name) == if p < |ents| then Some(ents[p].ino) else None
  {
    if p > 0 {
      FirstEntryAt(ents[1..], p - 1, name);
    }
  }

  lemma {:induction false} EntryInLog(log: seq<Named>, d: nat, p: nat)
    requires p < |Entries(log, d)|
    ensures exists k :: 0 <= k < |log| && log[k].entry == Entries(log, d)[p]
  {
    var log' := log[..|log| - 1];
    if p < |Entries(log', d)| {
      EntryInLog(log', d, p);
      var k :| 0 <= k < |log'| && log'[k].entry == Entries(log', d)[p];
      assert log[k].entry == Entries(log, d)[p];
    } else {
      assert log[|log| - 1].entry == Entries(log, d)[p];
    }
  }

  /** Follows a path name by name with find_direntry, as the VFS does. */
  method Resolve(k: Kernel, path: seq<seq<byte>>) returns (found: bool, ino: nat)
    requires k.Valid() && ROOT_INO in k.fs.dirs
    ensures found <==> InodeAt(k.fs, 1, path).Some?
    ensures found ==> InodeAt(k.fs, 1, path) == Some(ino) && ino < k.nextinode
  {
    hide Mounted, IGet, Entries;
    MountedBounds(k.Img(), k.g, k.nextinode, k.fs, -1, {});
    KindsOf(k.Img(), k.g, k.nextinode, k.fs);
    ino := ROOT_INO;
    var i := 0;
    while i < |path|
      invariant i <= |path| && ino < k.nextinode
      invariant InodeAt(k.fs, ROOT_INO, path) == InodeAt(k.fs, ino, path[i..])
    {
      TypeExact(k.Img(), k.g, k.nextinode, k.fs, ino);
      k.FieldIs(-1, {}, ino, FTYPE);
      if k.Field(ino, FTYPE) != FTYPE_DIR {
        return false, 0;
      }
      ghost var ents := Entries(k.fs.log, ino);
      ghost var p;
      var next;
      found, next, p := k.FindDirentry(ino, path[i]);
      if !found {
        FirstEntryAt(ents, |ents|, path[i]);
        return false, 0;
      }
      FirstEntryAt(ents, p, path[i]);
      EntryInLog(k.fs.log, ino, p);
      assert path[i..][1..] == path[i + 1..];
      ino := next;
      i := i + 1;
    }
    found := true;
  }

  lemma SameEntries(fs: Fs, fs': Fs, ents: seq<Entry>, items: seq<Host>, lo: nat)
    requires Mirrors(fs, ents, items, lo) && fs'.files == fs.files && fs'.links == fs.links && fs'.dirs == fs.dirs && fs'.log == fs.log
    ensures Mirrors(fs', ents, items, lo)
    decreases items
  {
    if items != [] {
      if !Copied(items[0]) {
        SameEntries(fs, fs', ents, items[1..], lo);
      } else {
        SameEntries(fs, fs', ents[1..], items[1..], lo);
        if items[0].HostDir? {
          SameEntries(fs, fs', Entries(fs.log, ents[0].ino), items[0].items, lo);
        }
      }
    }
  }

  /** Formats a disk, mounts it and reads from a path. Unless the format run aborts, the path is
      found exactly if the host has it, and reading a file returns exactly the host's bytes, at
      every size and from every position up to the end. */
  method FormatMountRead(nblocks: nat, ninodes: nat, items: seq<Host>, links: seq<Host>, ghost truth: Truth,
                         path: seq<seq<byte>>, count: word, fpos: word)
    returns (formatted: bool, found: bool, retval: int, out: seq<byte>)
    requires ValidArguments(nblocks, ninodes) && HostNames(items) && LinkOptions(links) && Truthful(truth, items + links) && path != []
    ensures Fits(nblocks, ninodes, items, links) ==> formatted
    ensures formatted ==> (found <==> HostAt(items + links, path).Some?)
    ensures formatted && found && HostAt(items + links, path).value.HostFile? && fpos <= |HostAt(items + links, path).value.bytes| ==>
              ReadResult(HostAt(items + links, path).value.bytes, count, fpos, retval, out)
    ensures formatted && NamesDiffer(items + links) &&
            (forall k :: 0 <= k < |path| ==> path[k] !in {[46], [46, 46], [67, 86, 83], [46, 115, 118, 110], [46, 103, 105, 116]}) ==>
              forall h :: HasAt(items + links, path, h) && (h.HostFile? || h.HostDir?) ==>
                found && (h.HostFile? && fpos <= |h.bytes| ==> ReadResult(h.bytes, count, fpos, retval, out))
  {
    hide Formatted, Mounted, AddItems, HasAt, NamesDiffer, Mirrors, Entries, HostAt, InodeAt, Fits, NamesFit, RunDemand;
    retval, out, found := 0, [], false;
    var r, disk;
    ghost var nextb, fs;
    r, disk, nextb, fs := Format(nblocks, ninodes, items, links);
    formatted := r.Done?;
    if formatted {
      ghost var next := Wanted(items, links).next;
      ghost var g := GeometryOf(nblocks, ninodes);
      FormattedMounts(disk, g, nextb, next, fs);
      var k := new Kernel(disk, g, next, fs);
      RunMirrors(items, links, truth);
      RootThere(items, links);
      SameEntries(Wanted(items, links).fs, fs, Entries(fs.log, ROOT_INO), items + links, 2);
      KindsOf(disk, g, next, fs);
      PathMirrors(fs, ROOT_INO, items + links, 2, path);
      NothingSkipped(items + links, path);
      var ino;
      found, ino := Resolve(k, path);
      if found {
        TypeExact(disk, g, next, fs, ino);
        MountedBounds(disk, g, next, fs, -1, {});
        k.FieldIs(-1, {}, ino, FTYPE);
        if k.Field(ino, FTYPE) == FTYPE_REG {
          var fpos';
          retval, out, fpos' := k.Read(ino, count, fpos);
        }
      }
    }
  }

  ghost predicate ReadResult(bytes: seq<byte>, count: nat, fpos: nat, retval: int, out: seq<byte>)
    requires fpos <= |bytes|
  {
    retval == |out| && out == bytes[fpos..if count + fpos > |bytes| then |bytes| else fpos + count]
  }

  lemma RootThere(items: seq<Host>, links: seq<Host>)
    ensures 1 in Wanted(items, links).fs.dirs
  {
    DirsGrow(RootFs(), ROOT_INO, items);
    DirsGrow(AddItems(RootFs(), ROOT_INO, items), ROOT_INO, links);
  }
}
