/** The 16-slot write-back block cache of ospfsformat (lab3/ospfsformat.c: getblk, putblk,
    flushb, flushdisk), on a little-endian host, where swizzleblock changes nothing. */
module BlockCache {
  import opened OspfsLayout

  datatype BlockType = SuperBlock | DirBlock | FileBlock | BitsBlock | InodesBlock

  const NSLOTS := 16

  /** One struct Block. A slot that was never used has used == 0. */
  datatype Slot = Slot(bno: nat, ty: BlockType, busy: nat, used: nat, data: Block)

  type Slots = seq<Slot>

  predicate Holds(s: Slot, b: nat) {
    s.used != 0 && s.bno == b
  }

  /** A used slot holds a block of the disk, no block sits in two slots, and only used slots
      are pinned. */
  ghost predicate ValidSlots(slots: Slots, nblocks: nat) {
    && |slots| == NSLOTS
    && (forall i :: 0 <= i < NSLOTS && slots[i].used != 0 ==> 1 <= slots[i].bno < nblocks)
    && (forall i :: 0 <= i < NSLOTS && slots[i].used == 0 ==> slots[i].bno == 0 && slots[i].busy == 0)
    && (forall i, j :: 0 <= i < j < NSLOTS && slots[i].used != 0 && slots[j].used != 0 ==> slots[i].bno != slots[j].bno)
  }

  /** The slot that holds block b, or -1. */
  ghost function HeldBy(slots: Slots, b: nat): (i: int)
    ensures -1 <= i < |slots|
    ensures i >= 0 ==> Holds(slots[i], b)
    ensures i < 0 ==> forall j :: 0 <= j < |slots| ==> !Holds(slots[j], b)
  {
    if slots == [] then -1
    else if Holds(slots[|slots| - 1], b) then |slots| - 1
    else HeldBy(slots[..|slots| - 1], b)
  }

  /** What a program that went through the cache would read from block b. */
  ghost function Current(disk: Image, slots: Slots, b: nat): Block
    requires b < |disk|
  {
    if HeldBy(slots, b) >= 0 then slots[HeldBy(slots, b)].data else disk[b]
  }

  ghost function View(disk: Image, slots: Slots): (v: Image)
    ensures |v| == |disk|
    ensures forall b: nat :: b < |disk| ==> v[b] == Current(disk, slots, b)
  {
    seq(|disk|, b requires 0 <= b < |disk| => Current(disk, slots, b))
  }

  lemma HeldByExact(slots: Slots, nblocks: nat, i: nat, b: nat)
    requires ValidSlots(slots, nblocks) && i < NSLOTS && Holds(slots[i], b)
    ensures HeldBy(slots, b) == i
  {
  }

  /** The pinned slots, with what they pin, are the same. */
  ghost predicate SamePins(a: Slots, b: Slots) {
    && |a| == |b|
    && forall i :: 0 <= i < |a| && (a[i].busy > 0 || b[i].busy > 0) ==>
         a[i].bno == b[i].bno && a[i].busy == b[i].busy && a[i].ty == b[i].ty && a[i].used != 0 && b[i].used != 0
  }

  /** The slots after putblk on slot s. */
  function Unpin(slots: Slots, s: nat): Slots {
    if s < |slots| && slots[s].busy > 0 then slots[s := slots[s].(busy := slots[s].busy - 1)] else slots
  }

  lemma SamePinsTrans(a: Slots, b: Slots, c: Slots)
    requires SamePins(a, b) && SamePins(b, c)
    ensures SamePins(a, c)
  {
  }

  /** Replacing one slot that does not hold block b by another that does not. */
  lemma CurrentElsewhere(disk: Image, slots: Slots, nblocks: nat, s: nat, slot: Slot, b: nat)
    requires s < NSLOTS && ValidSlots(slots, nblocks) && ValidSlots(slots[s := slot], nblocks)
    requires b < |disk| && !Holds(slots[s], b) && !Holds(slot, b)
    ensures Current(disk, slots[s := slot], b) == Current(disk, slots, b)
  {
    var i := HeldBy(slots, b);
    if i >= 0 {
      HeldByExact(slots[s := slot], nblocks, i, b);
    }
  }

  lemma UpdateView(disk: Image, slots: Slots, nblocks: nat, s: nat, slot: Slot)
    requires ValidSlots(slots, nblocks) && |disk| == nblocks && s < NSLOTS
    requires slots[s].used != 0 && slot.used != 0 && slot.bno == slots[s].bno
    ensures ValidSlots(slots[s := slot], nblocks)
    ensures View(disk, slots[s := slot]) == View(disk, slots)[slots[s].bno := slot.data]
  {
    HeldByExact(slots[s := slot], nblocks, s, slot.bno);
    forall b: nat | b < |disk| && b != slot.bno
      ensures Current(disk, slots[s := slot], b) == Current(disk, slots, b)
    {
      CurrentElsewhere(disk, slots, nblocks, s, slot, b);
    }
  }

  /** Writing a cached block back to the disk is invisible. */
  lemma FlushView(disk: Image, slots: Slots, nblocks: nat, s: nat)
    requires ValidSlots(slots, nblocks) && |disk| == nblocks && s < NSLOTS && slots[s].used != 0
    ensures View(disk[slots[s].bno := slots[s].data], slots) == View(disk, slots)
  {
    HeldByExact(slots, nblocks, s, slots[s].bno);
  }

  /** A clean slot may take in another block straight from the disk. */
  lemma LoadView(disk: Image, slots: Slots, nblocks: nat, s: nat, slot: Slot)
    requires ValidSlots(slots, nblocks) && |disk| == nblocks && s < NSLOTS
    requires slots[s].used != 0 ==> disk[slots[s].bno] == slots[s].data
    requires slot.used != 0 && 1 <= slot.bno < nblocks && slot.data == disk[slot.bno]
    requires HeldBy(slots, slot.bno) < 0
    ensures ValidSlots(slots[s := slot], nblocks)
    ensures View(disk, slots[s := slot]) == View(disk, slots)
  {
    HeldByExact(slots[s := slot], nblocks, s, slot.bno);
    forall b: nat | b < |disk| && b != slot.bno
      ensures Current(disk, slots[s := slot], b) == Current(disk, slots, b)
    {
      if Holds(slots[s], b) {
        HeldByExact(slots, nblocks, s, b);
      } else {
        CurrentElsewhere(disk, slots, nblocks, s, slot, b);
      }
    }
  }

  ghost predicate AllPinned(slots: Slots) {
    forall i :: 0 <= i < |slots| ==> slots[i].busy > 0
  }

  ghost function Pinned(slots: Slots): (n: nat)
    ensures n <= |slots|
  {
    if slots == [] then 0 else Pinned(slots[..|slots| - 1]) + if slots[|slots| - 1].busy > 0 then 1 else 0
  }

  /** Fewer than m slots are not pinned. */
  ghost predicate Short(slots: Slots, m: nat) {
    Pinned(slots) + m > NSLOTS
  }

  lemma ShortMore(slots: Slots, m: nat, n: nat)
    requires Short(slots, m) && m <= n
    ensures Short(slots, n)
  {
  }

  lemma {:induction false} PinnedBy(a: Slots, b: Slots, s: int)
    requires |a| == |b|
    requires forall i :: 0 <= i < |a| && i != s ==> (a[i].busy > 0 <==> b[i].busy > 0)
    ensures Pinned(b) <= Pinned(a) + if 0 <= s < |a| then 1 else 0
  {
    if a != [] {
      PinnedBy(a[..|a| - 1], b[..|b| - 1], s);
    }
  }

  lemma FullIsShort(slots: Slots)
    requires AllPinned(slots) && |slots| == NSLOTS
    ensures Short(slots, 1)
  {
    AllAreShort(slots);
  }

  lemma {:induction false} AllAreShort(slots: Slots)
    requires AllPinned(slots)
    ensures Pinned(slots) == |slots|
  {
    if slots != [] {
      AllAreShort(slots[..|slots| - 1]);
    }
  }

  lemma {:induction false} NoneAreShort(slots: Slots)
    requires forall i :: 0 <= i < |slots| ==> slots[i].busy == 0
    ensures Pinned(slots) == 0
  {
    if slots != [] {
      NoneAreShort(slots[..|slots| - 1]);
    }
  }

  /** With one pin less there is one more slot to be had. */
  lemma ShortBefore(a: Slots, b: Slots, s: nat, m: nat)
    requires SamePins(a, Unpin(b, s)) && Short(b, m)
    ensures Short(a, m + 1)
  {
    PinnedBy(a, b, s);
  }

  lemma ShortSame(a: Slots, b: Slots, m: nat)
    requires SamePins(a, b) && Short(b, m)
    ensures Short(a, m)
  {
    PinnedBy(a, b, -1);
  }

  /** Slot s is not pinned and was used no later than any other such slot. */
  ghost predicate LeastRecent(slots: Slots, s: nat) {
    s < |slots| && slots[s].busy == 0 &&
    forall i :: 0 <= i < |slots| && slots[i].busy == 0 ==> slots[s].used <= slots[i].used
  }

  datatype GetResult = Got(slot: nat) | PastEnd | CacheFull

  class Cache {
    const nblocks: nat
    var disk: Image
    var slots: Slots
    var t: nat

    constructor (nblocks: nat)
      ensures Valid() && fresh(this) && this.nblocks == nblocks
      ensures Contents() == seq(nblocks, _ => ZERO)
      ensures |slots| == 16 && forall i :: 0 <= i < 16 ==> slots[i].busy == 0
    {
      this.nblocks := nblocks;
      disk := seq(nblocks, _ => ZERO);
      slots := seq(NSLOTS, _ => Slot(0, SuperBlock, 0, 0, ZERO));
      t := 1;
    }

    ghost predicate Valid()
      reads this
    {
      |disk| == nblocks && ValidSlots(slots, nblocks) && t >= 1 && forall i :: 0 <= i < |slots| ==> slots[i].used <= t
    }

    ghost function Contents(): (v: Image)
      requires Valid()
      reads this
      ensures |v| == nblocks
    {
      View(disk, slots)
    }

    /** Block b is pinned under the type with which the caller asks for it, if at all. */
    ghost predicate TypeAgrees(b: nat, ty: BlockType)
      reads this
    {
      forall i :: 0 <= i < |slots| && Holds(slots[i], b) && slots[i].busy > 0 ==> slots[i].ty == ty
    }

    /** A slot shows its block. */
    lemma Shows(s: nat)
      requires Valid() && s < NSLOTS && slots[s].used != 0
      ensures 1 <= slots[s].bno < nblocks && Contents()[slots[s].bno] == slots[s].data
    {
      HeldByExact(slots, nblocks, s, slots[s].bno);
    }

    method FlushB(s: nat)
      requires Valid() && s < NSLOTS && slots[s].used != 0
      modifies this`disk
      ensures Valid() && Contents() == old(Contents())
      ensures disk == old(disk)[slots[s].bno := slots[s].data]
    {
      FlushView(disk, slots, nblocks, s);
      disk := disk[slots[s].bno := slots[s].data];
    }

    /** The search of getblk: the slot with this block number, else the least recently used
        slot that is not pinned, else none. */
    method FindSlot(bno: nat) returns (hit: bool, s: int)
      requires Valid() && bno >= 1
      ensures -1 <= s < NSLOTS
      ensures hit ==> s >= 0 && Holds(slots[s], bno)
      ensures !hit ==> HeldBy(slots, bno) < 0
      ensures !hit && s >= 0 ==> LeastRecent(slots, s)
      ensures !hit && s >= 0 ==> slots[s].busy == 0 && forall i :: 0 <= i < 16 && slots[i].busy == 0 ==> slots[s].used <= slots[i].used
      ensures !hit && s < 0 ==> AllPinned(slots)
    {
      var least := -1;
      var i := 0;
      while i < NSLOTS
        invariant 0 <= i <= NSLOTS && -1 <= least < i
        invariant forall j :: 0 <= j < i ==> slots[j].bno != bno
        invariant least == -1 ==> forall j :: 0 <= j < i ==> slots[j].busy > 0
        invariant least != -1 ==> slots[least].busy == 0
        invariant least != -1 ==> forall j :: 0 <= j < i && slots[j].busy == 0 ==> slots[least].used <= slots[j].used
      {
        if slots[i].bno == bno {
          return true, i;
        }
        if slots[i].busy == 0 && (least == -1 || slots[i].used < slots[least].used) {
          least := i;
        }
        i := i + 1;
      }
      return false, least;
    }

    /** Evicts what slot s holds and takes in block bno instead. */
    method Load(s: nat, bno: nat, ty: BlockType)
      requires Valid() && s < NSLOTS && slots[s].busy == 0
      requires 1 <= bno < nblocks && HeldBy(slots, bno) < 0
      modifies this`disk, this`slots
      ensures Valid() && Contents() == old(Contents())
      ensures slots[s].busy == 0 && Holds(slots[s], bno)
      ensures forall i :: 0 <= i < NSLOTS && i != s ==> slots[i] == old(slots[i])
    {
      if slots[s].used != 0 {
        FlushB(s);
      }
      var loaded := Slot(bno, ty, 0, t, disk[bno]);
      LoadView(disk, slots, nblocks, s, loaded);
      slots := slots[s := loaded];
    }

    /** The common end of getblk: clear if asked to, mark as most recently used, pin. */
    method Pin(s: nat, bno: nat, clr: bool, ty: BlockType)
      requires Valid() && s < NSLOTS && Holds(slots[s], bno)
      modifies this`slots, this`t
      ensures Valid() && Contents() == if clr then old(Contents())[bno := ZERO] else old(Contents())
      ensures Holds(slots[s], bno) && slots[s].ty == ty && slots[s].busy == old(slots[s].busy) + 1
      ensures forall i :: 0 <= i < 16 && i != s ==> slots[i].used < slots[s].used
      ensures forall i :: 0 <= i < NSLOTS && i != s ==> slots[i] == old(slots[i])
    {
      t := t + 1;
      var slot := Slot(bno, ty, slots[s].busy + 1, t, if clr then ZERO else slots[s].data);
      HeldByExact(slots, nblocks, s, bno);
      UpdateView(disk, slots, nblocks, s, slot);
      slots := slots[s := slot];
    }

    /** Pins block bno in a slot and returns the slot. Nothing but the requested clearing is
        visible, and no other slot changes. */
    method GetBlk(bno: nat, clr: bool, ty: BlockType) returns (r: GetResult)
      requires Valid() && bno >= 1 && TypeAgrees(bno, ty)
      modifies this
      ensures Valid()
      ensures r.PastEnd? <==> bno >= nblocks
      ensures r.CacheFull? <==> bno < nblocks && HeldBy(old(slots), bno) < 0 && AllPinned(old(slots))
      ensures r.CacheFull? ==> Short(old(slots), 1)
      ensures !r.Got? ==> slots == old(slots) && Contents() == old(Contents())
      ensures r.Got? ==> r.slot < NSLOTS && Holds(slots[r.slot], bno) && slots[r.slot].ty == ty
      ensures r.Got? ==> forall i :: 0 <= i < NSLOTS && i != r.slot ==> slots[i] == old(slots[i])
      ensures r.Got? ==> Contents() == if clr then old(Contents())[bno := ZERO] else old(Contents())
      ensures r.Got? ==> slots[r.slot].busy == old(slots[r.slot].busy) + 1
      ensures r.Got? ==> forall i :: 0 <= i < 16 && i != r.slot ==> slots[i].used < slots[r.slot].used
      ensures r.Got? ==> SamePins(old(slots), Unpin(slots, r.slot))
      ensures r.Got? ==> (if HeldBy(old(slots), bno) >= 0 then r.slot == HeldBy(old(slots), bno) else LeastRecent(old(slots), r.slot))
    {
      if bno >= nblocks {
        return PastEnd;
      }
      var hit, s := FindSlot(bno);
      if hit {
        HeldByExact(slots, nblocks, s, bno);
      } else {
        if s < 0 {
          FullIsShort(slots);
          return CacheFull;
        }
        Load(s, bno, ty);
      }
      Pin(s, bno, clr, ty);
      return Got(s);
    }

    method PutBlk(s: nat)
      requires Valid() && s < NSLOTS && slots[s].busy > 0
      modifies this`slots
      ensures Valid() && Contents() == old(Contents())
      ensures slots == Unpin(old(slots), s)
    {
      var slot := slots[s].(busy := slots[s].busy - 1);
      HeldByExact(slots, nblocks, s, slot.bno);
      UpdateView(disk, slots, nblocks, s, slot);
      slots := slots[s := slot];
    }

    /** Writing through the pointer that getblk returned. */
    method Store(s: nat, data: Block)
      requires Valid() && s < NSLOTS && slots[s].busy > 0
      modifies this`slots
      ensures Valid() && Contents() == old(Contents())[slots[s].bno := data]
      ensures slots == old(slots)[s := old(slots[s]).(data := data)]
    {
      var slot := slots[s].(data := data);
      UpdateView(disk, slots, nblocks, s, slot);
      slots := slots[s := slot];
    }

    method StoreWord(s: nat, w: nat, v: word)
      requires Valid() && s < NSLOTS && slots[s].busy > 0 && w < 256
      modifies this`slots
      ensures Valid() && Contents() == SetWordAt(old(Contents()), slots[s].bno, w, v)
      ensures slots == old(slots)[s := old(slots[s]).(data := SetWord(old(slots[s].data), w, v))]
    {
      Shows(s);
      Store(s, SetWord(slots[s].data, w, v));
    }

    /** After flushdisk the disk itself holds what the cache showed. */
    method FlushDisk()
      requires Valid()
      modifies this`disk
      ensures Valid() && Contents() == old(Contents()) && disk == Contents()
    {
      var i := 0;
      while i < NSLOTS
        invariant 0 <= i <= NSLOTS
        invariant Valid() && Contents() == old(Contents())
        invariant forall j :: 0 <= j < i && slots[j].used != 0 ==> disk[slots[j].bno] == slots[j].data
      {
        if slots[i].used != 0 {
          FlushB(i);
        }
        i := i + 1;
      }
      forall b: nat | b < nblocks
        ensures disk[b] == Contents()[b]
      {
      }
    }
  }
}
