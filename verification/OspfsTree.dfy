/** A run of ospfsformat puts a faithful copy of the host's files into the image: the same
    directories with the same names in the same order, and the same contents behind them. */
module OspfsTree {
  import opened OspfsLayout
  import opened OspfsContents
  import opened OspfsFs
  import opened OspfsSteps
  import opened OspfsFormat
  import opened OspfsHost
  import opened OspfsImage

  /** What the host's inode numbers stand for. */
  datatype Content = FileContent(bytes: seq<byte>) | LinkContent(target: seq<byte>)
  type Truth = map<nat, Content>

  /** Files of the host with the same inode number are the same file. */
  ghost predicate Truthful(truth: Truth, items: seq<Host>)
    decreases items
  {
    items == [] || (Truthful(truth, items[1..]) &&
      match items[0]
      case HostFile(_, host, bytes) => host == 0 || (host in truth && truth[host] == FileContent(bytes))
      case HostLink(_, host, target) => host == 0 || (host in truth && truth[host] == LinkContent(target))
      case HostDir(_, its) => Truthful(truth, its)
      case HostOther(_) => true)
  }

  /** The entries are those of the copied items, in order, and lead to the same contents.
      Directories on the way have inode numbers from lo on. */
  ghost predicate Mirrors(fs: Fs, ents: seq<Entry>, items: seq<Host>, lo: nat)
    decreases items
  {
    if items == [] then ents == []
    else if !Copied(items[0]) then Mirrors(fs, ents, items[1..], lo)
    else
      ents != [] && ents[0].name == items[0].name && Mirrors(fs, ents[1..], items[1..], lo) &&
      match items[0]
      case HostFile(_, _, bytes) => ents[0].ino in fs.files && fs.files[ents[0].ino] == bytes
      case HostLink(_, _, target) => ents[0].ino in fs.links && fs.links[ents[0].ino] == target
      case HostDir(_, its) => lo <= ents[0].ino && ents[0].ino in fs.dirs && Mirrors(fs, Entries(fs.log, ents[0].ino), its, lo)
      case HostOther(_) => false
  }

  ghost predicate Stands(fs: Fs, ino: nat, c: Content) {
    match c
    case FileContent(bytes) => ino in fs.files && fs.files[ino] == bytes
    case LinkContent(target) => ino in fs.links && fs.links[ino] == target
  }

  /** The state of a run on a truthful host. */
  ghost predicate Good(b: Built, truth: Truth) {
    && (forall i :: i in b.fs.files || i in b.fs.links || i in b.fs.dirs ==> i < b.next)
    && (forall k :: 0 <= k < |b.fs.log| ==> b.fs.log[k].dir < b.next)
    && (forall k :: 0 <= k < |b.table| ==> b.table[k].host in truth && Stands(b.fs, b.table[k].ino, truth[b.table[k].host]))
    && 0 < b.next
  }

  /** From b to c only directory d and new directories have gained entries. */
  ghost predicate Extends(b: Built, c: Built, d: nat) {
    && b.next <= c.next && b.fs.dirs <= c.fs.dirs
    && (forall i :: i in b.fs.files ==> i in c.fs.files && c.fs.files[i] == b.fs.files[i])
    && (forall i :: i in b.fs.links ==> i in c.fs.links && c.fs.links[i] == b.fs.links[i])
    && (forall x: nat :: x < b.next && x != d ==> Entries(c.fs.log, x) == Entries(b.fs.log, x))
  }

  lemma ExtendsTrans(a: Built, b: Built, c: Built, d: nat)
    requires Extends(a, b, d) && Extends(b, c, d)
    ensures Extends(a, c, d)
  {
  }

  /** Entries of a directory made in between do not matter. */
  lemma ExtendsInside(a: Built, b: Built, c: Built, d: nat)
    requires Extends(a, b, d) && Extends(b, c, a.next)
    ensures Extends(a, c, d)
  {
  }

  lemma {:induction false} MirrorsKept(b: Built, c: Built, d: nat, ents: seq<Entry>, items: seq<Host>, lo: nat)
    requires Extends(b, c, d) && d < lo && Mirrors(b.fs, ents, items, lo)
    requires forall i :: i in b.fs.dirs ==> i < b.next
    ensures Mirrors(c.fs, ents, items, lo)
    decreases items
  {
    if items != [] {
      if Copied(items[0]) {
        MirrorsKept(b, c, d, ents[1..], items[1..], lo);
        if items[0].HostDir? {
          MirrorsKept(b, c, d, Entries(b.fs.log, ents[0].ino), items[0].items, lo);
        }
      } else {
        MirrorsKept(b, c, d, ents, items[1..], lo);
      }
    }
  }

  lemma {:induction false} MirrorsLower(fs: Fs, ents: seq<Entry>, items: seq<Host>, hi: nat, lo: nat)
    requires Mirrors(fs, ents, items, hi) && lo <= hi
    ensures Mirrors(fs, ents, items, lo)
    decreases items
  {
    if items != [] {
      if Copied(items[0]) {
        MirrorsLower(fs, ents[1..], items[1..], hi, lo);
        if items[0].HostDir? {
          MirrorsLower(fs, Entries(fs.log, ents[0].ino), items[0].items, hi, lo);
        }
      } else {
        MirrorsLower(fs, ents, items[1..], hi, lo);
      }
    }
  }

  // ---------------------------------------------------------------- one item

  lemma {:induction false} KnownStands(table: seq<Hardlink>, fs: Fs, truth: Truth, host: nat)
    requires forall k :: 0 <= k < |table| ==> table[k].host in truth && Stands(fs, table[k].ino, truth[table[k].host])
    requires Lookup(table, host) != 0
    ensures host in truth && Stands(fs, Lookup(table, host), truth[host])
  {
    if table[0].host != host {
      KnownStands(table[1..], fs, truth, host);
    }
  }

  lemma EnterStep(b: Built, d: nat, name: seq<byte>, ino: nat)
    requires d < b.next
    ensures Extends(b, Enter(b, d, name, ino), d)
    ensures Entries(Enter(b, d, name, ino).fs.log, d) == Entries(b.fs.log, d) + [Entry(ino, name)]
  {
    forall x: nat
      ensures Entries(Enter(b, d, name, ino).fs.log, x) == Entries(b.fs.log, x) + (if d == x then [Entry(ino, name)] else [])
    {
      EntriesNext(b.fs.log, Named(d, Entry(ino, name)), x);
    }
  }

  function WithContent(fs: Fs, i: nat, c: Content): Fs {
    match c
    case FileContent(bytes) => fs.(files := fs.files[i := bytes])
    case LinkContent(target) => fs.(links := fs.links[i := target])
  }

  function AddContent(b: Built, d: nat, name: seq<byte>, host: nat, c: Content): Built {
    match c
    case FileContent(bytes) => AddFile(b, d, name, host, bytes)
    case LinkContent(target) => AddLink(b, d, name, host, target)
  }

  /** The state after a file or link that is new to the image, before its name is entered. */
  function WithNew(b: Built, host: nat, c: Content): Built {
    Built(WithContent(b.fs, b.next, c), b.next + 1, Remember(b.table, host, b.next))
  }

  lemma NewContent(b: Built, d: nat, host: nat, c: Content, truth: Truth)
    requires Good(b, truth) && d in b.fs.dirs && (host == 0 || (host in truth && truth[host] == c))
    ensures Good(WithNew(b, host, c), truth) && Extends(b, WithNew(b, host, c), d) && Stands(WithNew(b, host, c).fs, b.next, c)
  {
    hide Entries;
  }

  lemma EnterGood(b: Built, d: nat, name: seq<byte>, ino: nat, truth: Truth)
    requires Good(b, truth) && d in b.fs.dirs
    ensures Good(Enter(b, d, name, ino), truth)
  {
  }

  /** A file or link that is copied leaves its content behind its name. */
  lemma AddedOne(b: Built, d: nat, name: seq<byte>, host: nat, c: Content, truth: Truth, b1: Built)
    requires Good(b, truth) && d in b.fs.dirs && (host == 0 || (host in truth && truth[host] == c))
    requires b1 == AddContent(b, d, name, host, c)
    ensures Good(b1, truth) && Extends(b, b1, d)
    ensures |Entries(b1.fs.log, d)| == |Entries(b.fs.log, d)| + 1 && Entries(b1.fs.log, d)[..|Entries(b.fs.log, d)|] == Entries(b.fs.log, d)
    ensures Entries(b1.fs.log, d)[|Entries(b.fs.log, d)|].name == name && Stands(b1.fs, Entries(b1.fs.log, d)[|Entries(b.fs.log, d)|].ino, c)
  {
    hide Entries;
    if Known(b, host) != 0 {
      KnownStands(b.table, b.fs, truth, host);
      hide Good, Extends, Lookup;
      EnterStep(b, d, name, Known(b, host));
      EnterGood(b, d, name, Known(b, host), truth);
    } else {
      var b0 := WithNew(b, host, c);
      NewContent(b, d, host, c, truth);
      SameDirEntries(b, b0, d);
      hide Good, Extends, Lookup;
      EnterStep(b0, d, name, b.next);
      EnterGood(b0, d, name, b.next, truth);
      ExtendsTrans(b, b0, b1, d);
    }
  }

  lemma SameDirEntries(b: Built, b0: Built, d: nat)
    requires b0.fs.log == b.fs.log && d in b.fs.dirs && b0.fs.dirs == b.fs.dirs && b.next <= b0.next && (forall i :: i in b.fs.dirs ==> i < b.next)
    ensures Entries(b0.fs.log, d) == Entries(b.fs.log, d) && d in b0.fs.dirs && d < b0.next
  {
    hide Entries;
  }

  lemma AddedDir(b: Built, d: nat, name: seq<byte>, truth: Truth)
    requires Good(b, truth) && d in b.fs.dirs
    ensures Good(AddDir(b, d, name), truth) && Extends(b, AddDir(b, d, name), d)
    ensures Entries(AddDir(b, d, name).fs.log, d) == Entries(b.fs.log, d) + [Entry(b.next, name)]
    ensures Entries(AddDir(b, d, name).fs.log, b.next) == []
  {
    hide Entries;
    var b0 := Built(b.fs.(dirs := b.fs.dirs + {b.next}), b.next + 1, b.table);
    assert Extends(b, b0, d);
    EnterStep(b0, d, name, b.next);
    ExtendsTrans(b, b0, AddDir(b, d, name), d);
    NoEntries(b.fs.log, b.next);
  }

  // ---------------------------------------------------------------- all items

  /** What the items add to directory d mirrors them. */
  ghost predicate Added(b: Built, c: Built, d: nat, items: seq<Host>, truth: Truth) {
    && Good(c, truth) && Extends(b, c, d)
    && |Entries(b.fs.log, d)| <= |Entries(c.fs.log, d)|
    && Entries(c.fs.log, d)[..|Entries(b.fs.log, d)|] == Entries(b.fs.log, d)
    && Mirrors(c.fs, Entries(c.fs.log, d)[|Entries(b.fs.log, d)|..], items, b.next)
  }

  /** One entry is added for the first item, then those for the others. */
  lemma AddedCons(b: Built, b1: Built, c: Built, d: nat, items: seq<Host>, truth: Truth)
    requires items != [] && Copied(items[0]) && Extends(b, b1, d) && Added(b1, c, d, items[1..], truth)
    requires |Entries(b1.fs.log, d)| == |Entries(b.fs.log, d)| + 1 && Entries(b1.fs.log, d)[..|Entries(b.fs.log, d)|] == Entries(b.fs.log, d)
    requires Entries(b1.fs.log, d)[|Entries(b.fs.log, d)|].name == items[0].name
    requires items[0].HostFile? ==> Stands(c.fs, Entries(b1.fs.log, d)[|Entries(b.fs.log, d)|].ino, FileContent(items[0].bytes))
    requires items[0].HostLink? ==> Stands(c.fs, Entries(b1.fs.log, d)[|Entries(b.fs.log, d)|].ino, LinkContent(items[0].target))
    requires items[0].HostDir? ==> Entries(b1.fs.log, d)[|Entries(b.fs.log, d)|].ino == b.next && b.next in c.fs.dirs
    requires items[0].HostDir? ==> Mirrors(c.fs, Entries(c.fs.log, b.next), items[0].items, b.next)
    ensures Added(b, c, d, items, truth)
  {
    hide Entries, Extends, Good;
    ExtendsTrans(b, b1, c, d);
    var n := |Entries(b.fs.log, d)|;
    var ents := Entries(c.fs.log, d)[n..];
    assert ents[0] == Entries(c.fs.log, d)[..n + 1][n] && ents[1..] == Entries(c.fs.log, d)[n + 1..];
    assert Entries(c.fs.log, d)[..n] == Entries(c.fs.log, d)[..n + 1][..n];
    assert b.next <= b1.next by { NextGrows(b, b1, d); }
    MirrorsLower(c.fs, ents[1..], items[1..], b1.next, b.next);
    if items[0].HostDir? {
      assert Mirrors(c.fs, Entries(c.fs.log, ents[0].ino), items[0].items, b.next);
    }
  }

  lemma NextGrows(b: Built, c: Built, d: nat)
    requires Extends(b, c, d)
    ensures b.next <= c.next && b.fs.dirs <= c.fs.dirs
  {
  }

  lemma StandsKept(b: Built, c: Built, d: nat, ino: nat, x: Content)
    requires Extends(b, c, d) && Stands(b.fs, ino, x)
    ensures Stands(c.fs, ino, x)
  {
  }

  lemma ExtendsSelf(b: Built, d: nat)
    ensures Extends(b, b, d)
  {
  }

  lemma ExtendsAt(b: Built, c: Built, d: nat, x: nat)
    requires Extends(b, c, d) && x != d && x < b.next
    ensures Entries(c.fs.log, x) == Entries(b.fs.log, x)
  {
  }

  lemma GoodDirs(b: Built, truth: Truth)
    requires Good(b, truth)
    ensures forall i :: i in b.fs.dirs ==> i < b.next
  {
  }

  lemma {:induction false} ItemsAdded(b: Built, d: nat, items: seq<Host>, truth: Truth)
    requires Good(b, truth) && d in b.fs.dirs && Truthful(truth, items)
    ensures Added(b, AddItems(b, d, items), d, items, truth)
    decreases items
  {
    var c := AddItems(b, d, items);
    hide Good, Extends, Stands;
    if items == [] {
      ExtendsSelf(b, d);
      assert Entries(b.fs.log, d)[|Entries(b.fs.log, d)|..] == [];
    } else if !Copied(items[0]) {
      ItemsAdded(b, d, items[1..], truth);
    } else if items[0].HostDir? {
      var name, its := items[0].name, items[0].items;
      var b1 := AddDir(b, d, name);
      AddedDir(b, d, name, truth);
      ItemsAdded(b1, b.next, its, truth);
      var b2 := AddItems(b1, b.next, its);
      DirectoryAdded(b, b1, b2, d, items, truth);
      ItemsAdded(b2, d, items[1..], truth);
      GoodDirs(b, truth);
      GoodDirs(b2, truth);
      NextGrows(b2, c, d);
      ExtendsAt(b2, c, d, b.next);
      MirrorsKept(b2, c, d, Entries(b2.fs.log, b.next), its, b1.next);
      MirrorsLower(c.fs, Entries(b2.fs.log, b.next), its, b1.next, b.next);
      hide AddItems, Mirrors, Entries;
      AddedCons(b, b2, c, d, items, truth);
    } else {
      var x := if items[0].HostFile? then FileContent(items[0].bytes) else LinkContent(items[0].target);
      var b1 := AddContent(b, d, items[0].name, items[0].host, x);
      AddedOne(b, d, items[0].name, items[0].host, x, truth, b1);
      NextGrows(b, b1, d);
      ItemsAdded(b1, d, items[1..], truth);
      StandsKept(b1, c, d, Entries(b1.fs.log, d)[|Entries(b.fs.log, d)|].ino, x);
      hide AddItems, Mirrors, Entries;
      AddedCons(b, b1, c, d, items, truth);
    }
  }

  /** The entries of d after a directory in d has been filled. */
  lemma DirectoryAdded(b: Built, b1: Built, b2: Built, d: nat, items: seq<Host>, truth: Truth)
    requires Good(b, truth) && d in b.fs.dirs && items != [] && items[0].HostDir? && b1 == AddDir(b, d, items[0].name)
    requires Good(b1, truth) && Extends(b, b1, d) && Entries(b1.fs.log, b.next) == []
    requires Entries(b1.fs.log, d) == Entries(b.fs.log, d) + [Entry(b.next, items[0].name)]
    requires Added(b1, b2, b.next, items[0].items, truth)
    ensures Good(b2, truth) && Extends(b, b2, d) && d in b2.fs.dirs && b.next in b2.fs.dirs
    ensures Entries(b2.fs.log, d) == Entries(b1.fs.log, d)
    ensures Mirrors(b2.fs, Entries(b2.fs.log, b.next), items[0].items, b1.next)
  {
    hide Entries, Mirrors;
    ExtendsInside(b, b1, b2, d);
    assert Entries(b2.fs.log, b.next)[0..] == Entries(b2.fs.log, b.next);
  }

  lemma {:induction false} AddItemsConcat(b: Built, d: nat, s: seq<Host>, t: seq<Host>)
    ensures AddItems(b, d, s + t) == AddItems(AddItems(b, d, s), d, t)
    decreases s
  {
    if s == [] {
      assert s + t == t;
    } else {
      assert (s + t)[0] == s[0] && (s + t)[1..] == s[1..] + t;
      if !Copied(s[0]) {
        AddItemsConcat(b, d, s[1..], t);
      } else {
        match s[0]
        case HostFile(name, host, bytes) => AddItemsConcat(AddFile(b, d, name, host, bytes), d, s[1..], t);
        case HostLink(name, host, target) => AddItemsConcat(AddLink(b, d, name, host, target), d, s[1..], t);
        case HostDir(name, its) => AddItemsConcat(AddItems(AddDir(b, d, name), b.next, its), d, s[1..], t);
      }
    }
  }

  /** A whole run: the root directory of the image mirrors the files that were asked for,
      followed by the links of the -l options. */
  lemma RunMirrors(items: seq<Host>, links: seq<Host>, truth: Truth)
    requires Truthful(truth, items + links)
    ensures Mirrors(Wanted(items, links).fs, Entries(Wanted(items, links).fs.log, 1), items + links, 2)
  {
    AddItemsConcat(RootFs(), ROOT_INO, items, links);
    ItemsAdded(RootFs(), ROOT_INO, items + links, truth);
    var ents := Entries(Wanted(items, links).fs.log, ROOT_INO);
    assert ents[0..] == ents;
  }

  // ---------------------------------------------------------------- names that share an inode

  /** The host inode numbers of what is copied, in the order in which names are entered; 0 stands for
      something with one name. */
  function HostNumbers(items: seq<Host>): seq<nat>
    decreases items
  {
    if items == [] then []
    else if !Copied(items[0]) then HostNumbers(items[1..])
    else if items[0].HostDir? then [0] + HostNumbers(items[0].items) + HostNumbers(items[1..])
    else [items[0].host] + HostNumbers(items[1..])
  }

  /** Names lead to the same inode exactly if the host says that they are names of the same file. */
  ghost predicate Shared(log: seq<Named>, hosts: seq<nat>) {
    && |log| == |hosts|
    && forall i, j :: 0 <= i < j < |log| ==> (log[i].entry.ino == log[j].entry.ino <==> hosts[i] == hosts[j] && hosts[i] != 0)
  }

  ghost predicate SharedSoFar(b: Built, hosts: seq<nat>) {
    && Shared(b.fs.log, hosts) && 0 < b.next
    && (forall i :: 0 <= i < |hosts| ==> 0 < b.fs.log[i].entry.ino < b.next)
    && (forall i :: 0 <= i < |hosts| && hosts[i] != 0 ==> Lookup(b.table, hosts[i]) == b.fs.log[i].entry.ino)
    && (forall h: nat :: h != 0 && Lookup(b.table, h) != 0 ==> h in hosts)
  }

  /** Entering one more name. */
  lemma SharedNext(b: Built, hosts: seq<nat>, d: nat, name: seq<byte>, host: nat, b1: Built)
    requires SharedSoFar(b, hosts)
    requires var ino := if Known(b, host) != 0 then Known(b, host) else b.next;
             b1.fs.log == b.fs.log + [Named(d, Entry(ino, name))]
    requires Known(b, host) != 0 ==> b1.next == b.next && b1.table == b.table
    requires Known(b, host) == 0 ==> b1.next == b.next + 1 && b1.table == Remember(b.table, host, b.next)
    ensures SharedSoFar(b1, hosts + [host])
  {
    var n := |hosts|;
    assert forall i :: 0 <= i < n ==> b1.fs.log[i] == b.fs.log[i] && (hosts + [host])[i] == hosts[i];
    if Known(b, host) != 0 {
      var k :| 0 <= k < n && hosts[k] == host;
      assert b.fs.log[k].entry.ino == Known(b, host);
    } else if host != 0 {
      assert b1.table[0].host == host && b1.table[1..] == b.table;
      assert host !in hosts;
    }
  }

  lemma {:induction false} ItemsShared(b: Built, d: nat, items: seq<Host>, hosts: seq<nat>)
    requires SharedSoFar(b, hosts)
    ensures SharedSoFar(AddItems(b, d, items), hosts + HostNumbers(items))
    decreases items
  {
    hide SharedSoFar;
    if items == [] {
      assert hosts + [] == hosts;
    } else if !Copied(items[0]) {
      ItemsShared(b, d, items[1..], hosts);
    } else if items[0].HostDir? {
      var b1, its := AddDir(b, d, items[0].name), items[0].items;
      SharedNext(b, hosts, d, items[0].name, 0, b1);
      ItemsShared(b1, b.next, its, hosts + [0]);
      ItemsShared(AddItems(b1, b.next, its), d, items[1..], hosts + [0] + HostNumbers(its));
      assert hosts + [0] + HostNumbers(its) + HostNumbers(items[1..]) == hosts + HostNumbers(items);
    } else {
      var h := items[0];
      var b1 := if h.HostFile? then AddFile(b, d, h.name, h.host, h.bytes) else AddLink(b, d, h.name, h.host, h.target);
      SharedNext(b, hosts, d, h.name, h.host, b1);
      ItemsShared(b1, d, items[1..], hosts + [h.host]);
      assert hosts + [h.host] + HostNumbers(items[1..]) == hosts + HostNumbers(items);
    }
  }

  /** In the image of a whole run, two names share an inode exactly if they do on the host. */
  lemma RunShares(items: seq<Host>, links: seq<Host>)
    ensures Shared(Wanted(items, links).fs.log, HostNumbers(items + links))
  {
    AddItemsConcat(RootFs(), ROOT_INO, items, links);
    assert SharedSoFar(RootFs(), []);
    ItemsShared(RootFs(), ROOT_INO, items + links, []);
    assert [] + HostNumbers(items + links) == HostNumbers(items + links);
  }
}
