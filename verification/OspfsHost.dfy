/** What a run of ospfsformat is to put into an image: the host's files, links and directories,
    and the inodes, names and contents that each of them adds (lab3/ospfsformat.c). */
module OspfsHost {
  import opened OspfsLayout
  import opened OspfsContents
  import opened OspfsFs
  import opened OspfsCosts
  import opened OspfsSteps
  import opened OspfsFormat

  /** What lstat and readdir show. host is the inode number on the host if the file has several
      names there, else zero. HostOther stands for devices, sockets and files that lstat refuses. */
  datatype Host =
    | HostFile(name: seq<byte>, host: nat, bytes: seq<byte>)
    | HostLink(name: seq<byte>, host: nat, target: seq<byte>)
    | HostDir(name: seq<byte>, items: seq<Host>)
    | HostOther(name: seq<byte>)

  /** The state of a run, without the block numbers. */
  datatype Built = Built(fs: Fs, next: nat, table: seq<Hardlink>)

  /** get_hardlink: the inode made for a host inode, or 0. */
  function Lookup(table: seq<Hardlink>, host: nat): nat {
    if table == [] then 0
    else if table[0].host == host then table[0].ino
    else Lookup(table[1..], host)
  }

  function Known(b: Built, host: nat): nat {
    if host == 0 then 0 else Lookup(b.table, host)
  }

  function Remember(table: seq<Hardlink>, host: nat, ino: nat): seq<Hardlink> {
    if host == 0 then table else [Hardlink(host, ino)] + table
  }

  /** One more directory entry. */
  function Enter(b: Built, d: nat, name: seq<byte>, ino: nat): Built {
    b.(fs := b.fs.(log := b.fs.log + [Named(d, Entry(ino, name))]))
  }

  function AddFile(b: Built, d: nat, name: seq<byte>, host: nat, bytes: seq<byte>): Built {
    if Known(b, host) != 0 then Enter(b, d, name, Known(b, host))
    else
      Enter(Built(b.fs.(files := b.fs.files[b.next := bytes]), b.next + 1, Remember(b.table, host, b.next)), d, name, b.next)
  }

  function AddLink(b: Built, d: nat, name: seq<byte>, host: nat, target: seq<byte>): Built {
    if Known(b, host) != 0 then Enter(b, d, name, Known(b, host))
    else
      Enter(Built(b.fs.(links := b.fs.links[b.next := target]), b.next + 1, Remember(b.table, host, b.next)), d, name, b.next)
  }

  function AddDir(b: Built, d: nat, name: seq<byte>): Built {
    Enter(Built(b.fs.(dirs := b.fs.dirs + {b.next}), b.next + 1, b.table), d, name, b.next)
  }

  /** The directories that are not copied: . and .. and those of version control systems. */
  predicate Skipped(name: seq<byte>) {
    || name == [46]
    || name == [46, 46]
    || name == [67, 86, 83]
    || name == [46, 115, 118, 110]
    || name == [46, 103, 105, 116]
  }

  predicate Copied(h: Host) {
    match h
    case HostFile(_, _, _) => true
    case HostLink(_, _, target) => |target| <= MAXSYMLINKLEN
    case HostDir(name, _) => !Skipped(name)
    case HostOther(_) => false
  }

  /** What the items of a host directory add to directory d. */
  function AddItems(b: Built, d: nat, items: seq<Host>): Built
    decreases items
  {
    if items == [] then b
    else
      var h := items[0];
      if !Copied(h) then AddItems(b, d, items[1..])
      else
        match h
        case HostFile(name, host, bytes) => AddItems(AddFile(b, d, name, host, bytes), d, items[1..])
        case HostLink(name, host, target) => AddItems(AddLink(b, d, name, host, target), d, items[1..])
        case HostDir(name, its) => AddItems(AddItems(AddDir(b, d, name), b.next, its), d, items[1..])
        case HostOther(_) => b
  }

  // ---------------------------------------------------------------- what a run takes

  function Max(m: nat, n: nat): nat {
    if m < n then n else m
  }

  /** First one thing, then another. */
  function Both(a: Demand, b: Demand): Demand {
    Demand(Max(a.slots, b.slots), a.blocks + b.blocks, Max(a.spare, b.spare), Max(a.next, b.next), a.names && b.names)
  }

  /** A name for a file or link. */
  function PlaceDemand(b: Built, d: nat, name: seq<byte>, host: nat): Demand {
    Demand(3, EntryCost(|Entries(b.fs.log, d)|), 0, if Known(b, host) != 0 then b.next else b.next + 1, |name| <= 123)
  }

  /** The data of a file. Where the data fill the last block, the loop of writefile looks at one
      block more. */
  function DataDemand(length: nat): Demand {
    Demand(3, Blocks(Nblocks(length)), if length % 1024 == 0 then 1 else 0, 0, true)
  }

  function FileDemand(b: Built, d: nat, name: seq<byte>, host: nat, bytes: seq<byte>): Demand {
    var place := PlaceDemand(b, d, name, host);
    if Known(b, host) != 0 then place
    else Both(place, DataDemand(|bytes|).(slots := DataDemand(|bytes|).slots + 2))
  }

  function ItemsDemand(b: Built, d: nat, items: seq<Host>): Demand
    decreases items
  {
    if items == [] then Demand(0, 0, 0, b.next, true)
    else
      var h := items[0];
      if !Copied(h) then ItemsDemand(b, d, items[1..])
      else
        match h
        case HostFile(name, host, bytes) =>
          Both(FileDemand(b, d, name, host, bytes), ItemsDemand(AddFile(b, d, name, host, bytes), d, items[1..]))
        case HostLink(name, host, target) =>
          Both(PlaceDemand(b, d, name, host), ItemsDemand(AddLink(b, d, name, host, target), d, items[1..]))
        case HostDir(name, its) =>
          Both(DirDemand(b, d, name, ItemsDemand(AddDir(b, d, name), b.next, its)),
               ItemsDemand(AddItems(AddDir(b, d, name), b.next, its), d, items[1..]))
        case HostOther(_) => Demand(0, 0, 0, b.next, true)
  }

  /** A directory keeps two slots pinned while its files are copied. */
  function DirDemand(b: Built, d: nat, name: seq<byte>, inner: Demand): Demand {
    Both(PlaceDemand(b, d, name, 0), inner.(slots := inner.slots + 2))
  }

  function ItemDemand(b: Built, d: nat, h: Host): Demand {
    match h
    case HostFile(name, host, bytes) => FileDemand(b, d, name, host, bytes)
    case HostLink(name, host, target) => PlaceDemand(b, d, name, host)
    case HostDir(name, its) => DirDemand(b, d, name, ItemsDemand(AddDir(b, d, name), b.next, its))
    case HostOther(_) => Demand(0, 0, 0, b.next, true)
  }

  /** Every name that is copied is short enough. */
  predicate NamesFit(items: seq<Host>) {
    items == [] ||
    (NamesFit(items[1..]) && (Copied(items[0]) ==> |items[0].name| <= 123 && (items[0].HostDir? ==> NamesFit(items[0].items))))
  }

  /** The inodes that are needed are those that are made. */
  lemma {:induction false} DemandNext(b: Built, d: nat, items: seq<Host>)
    ensures ItemsDemand(b, d, items).next == AddItems(b, d, items).next
    decreases items
  {
    if items != [] {
      var h := items[0];
      if !Copied(h) {
        DemandNext(b, d, items[1..]);
      } else {
        match h
        case HostFile(name, host, bytes) =>
          DemandNext(AddFile(b, d, name, host, bytes), d, items[1..]);
          DirsGrow(AddFile(b, d, name, host, bytes), d, items[1..]);
        case HostLink(name, host, target) =>
          DemandNext(AddLink(b, d, name, host, target), d, items[1..]);
          DirsGrow(AddLink(b, d, name, host, target), d, items[1..]);
        case HostDir(name, its) =>
          DemandNext(AddDir(b, d, name), b.next, its);
          DirsGrow(AddDir(b, d, name), b.next, its);
          DemandNext(AddItems(AddDir(b, d, name), b.next, its), d, items[1..]);
          DirsGrow(AddItems(AddDir(b, d, name), b.next, its), d, items[1..]);
      }
    }
  }

  /** How deeply directories are nested. */
  function Depth(items: seq<Host>): nat {
    if items == [] then 0
    else Max(if items[0].HostDir? && Copied(items[0]) then 1 + Depth(items[0].items) else 0, Depth(items[1..]))
  }

  /** Every level of directories takes two slots. */
  lemma {:induction false} DepthSlots(b: Built, d: nat, items: seq<Host>)
    ensures ItemsDemand(b, d, items).slots <= 5 + 2 * Depth(items)
    decreases items
  {
    if items != [] {
      var h := items[0];
      if !Copied(h) {
        DepthSlots(b, d, items[1..]);
      } else {
        match h
        case HostFile(name, host, bytes) => DepthSlots(AddFile(b, d, name, host, bytes), d, items[1..]);
        case HostLink(name, host, target) => DepthSlots(AddLink(b, d, name, host, target), d, items[1..]);
        case HostDir(name, its) =>
          DepthSlots(AddDir(b, d, name), b.next, its);
          DepthSlots(AddItems(AddDir(b, d, name), b.next, its), d, items[1..]);
      }
    }
  }

  /** Host names are C strings. */
  predicate HostNames(items: seq<Host>) {
    items == [] || (0 !in items[0].name && (items[0].HostDir? ==> HostNames(items[0].items)) &&
      (items[0].HostLink? ==> 0 !in items[0].target) && HostNames(items[1..]))
  }

  // ---------------------------------------------------------------- bookkeeping of a run

  /** Every host inode in the table stands for a file or link of the image. */
  ghost predicate TableOk(table: seq<Hardlink>, fs: Fs) {
    forall k :: 0 <= k < |table| ==> table[k].ino != 0 && (table[k].ino in fs.files || table[k].ino in fs.links)
  }

  lemma {:induction false} LookupOk(table: seq<Hardlink>, fs: Fs, host: nat)
    requires TableOk(table, fs)
    ensures Lookup(table, host) != 0 ==> Lookup(table, host) in fs.files || Lookup(table, host) in fs.links
    ensures Lookup(table, host) != 0 <==> exists k :: 0 <= k < |table| && table[k].host == host
  {
    if table != [] && table[0].host != host {
      LookupOk(table[1..], fs, host);
      if Lookup(table, host) != 0 {
        var k :| 0 <= k < |table[1..]| && table[1..][k].host == host;
        assert table[k + 1].host == host;
      }
    }
  }

  /** Directories and inode numbers stay. */
  lemma {:induction false} DirsGrow(b: Built, d: nat, items: seq<Host>)
    ensures b.fs.dirs <= AddItems(b, d, items).fs.dirs && b.next <= AddItems(b, d, items).next
    decreases items
  {
    if items != [] {
      var h := items[0];
      if !Copied(h) {
        DirsGrow(b, d, items[1..]);
      } else {
        match h
        case HostFile(name, host, bytes) => DirsGrow(AddFile(b, d, name, host, bytes), d, items[1..]);
        case HostLink(name, host, target) => DirsGrow(AddLink(b, d, name, host, target), d, items[1..]);
        case HostDir(name, its) =>
          DirsGrow(AddDir(b, d, name), b.next, its);
          DirsGrow(AddItems(AddDir(b, d, name), b.next, its), d, items[1..]);
      }
    }
  }
}
