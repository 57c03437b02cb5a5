/** The free-block bitmap of OSPFS as it lies in 32-bit words: testing, clearing and setting
    one bit (bitvector_test, bitvector_clear and bitvector_set in lab3/ospfsmod.c, and the same
    word operations in finishfs of lab3/ospfsformat.c). */
module OspfsBits {
  import opened OspfsLayout

  /** (w & (1 << k)) != 0. */
  predicate TestBit(w: nat, k: nat) {
    if k == 0 then w % 2 == 1 else TestBit(w / 2, k - 1)
  }

  /** w & ~(1 << k). */
  function ClearBit(w: nat, k: nat): nat {
    if k == 0 then w - w % 2 else 2 * ClearBit(w / 2, k - 1) + w % 2
  }

  /** w | (1 << k). */
  function SetBit(w: nat, k: nat): nat {
    if k == 0 then w - w % 2 + 1 else 2 * SetBit(w / 2, k - 1) + w % 2
  }

  function Pow2(k: nat): (r: nat)
    ensures r >= 1
  {
    if k == 0 then 1 else 2 * Pow2(k - 1)
  }

  /** Clearing a bit clears that bit and no other. */
  lemma {:induction false} ClearExact(w: nat, k: nat, j: nat)
    ensures TestBit(ClearBit(w, k), j) <==> j != k && TestBit(w, j)
    ensures ClearBit(w, k) <= w
  {
    if k > 0 {
      ClearExact(w / 2, k - 1, if j > 0 then j - 1 else 0);
      assert ClearBit(w, k) / 2 == ClearBit(w / 2, k - 1);
    } else if j > 0 {
      assert ClearBit(w, k) / 2 == w / 2;
    }
  }

  /** Setting a bit sets that bit and no other, and stays within the word. */
  lemma {:induction false} SetExact(w: nat, k: nat, j: nat, n: nat)
    requires k < n && w < Pow2(n)
    ensures TestBit(SetBit(w, k), j) <==> j == k || TestBit(w, j)
    ensures SetBit(w, k) < Pow2(n)
  {
    assert Pow2(n) == 2 * Pow2(n - 1);
    if k > 0 {
      SetExact(w / 2, k - 1, if j > 0 then j - 1 else 0, n - 1);
      assert SetBit(w, k) / 2 == SetBit(w / 2, k - 1);
    } else if j > 0 {
      assert SetBit(w, k) / 2 == w / 2;
    }
  }

  /** Setting a bit that was clear after clearing it gives the word back. */
  lemma {:induction false} ClearThenSet(w: nat, k: nat)
    requires TestBit(w, k)
    ensures SetBit(ClearBit(w, k), k) == w
  {
    if k > 0 {
      ClearThenSet(w / 2, k - 1);
      assert ClearBit(w, k) / 2 == ClearBit(w / 2, k - 1) && ClearBit(w, k) % 2 == w % 2;
    }
  }

  lemma Pow32()
    ensures Pow2(32) == 0x1_0000_0000
  {
    assert Pow2(8) == 256;
    assert Pow2(16) == 0x1_0000;
    assert Pow2(24) == 0x100_0000;
  }

  // ---------------------------------------------------------------- the bitmap

  /** Bit i of the bitmap, which lies in one block for a disk of at most 8192 blocks. */
  predicate IsFree(img: Image, i: nat) {
    TestBit(WordAt(img, FREEMAP_BLK, i / 32), i % 32)
  }

  function Cleared(img: Image, i: nat): (r: Image)
    ensures |r| == |img|
  {
    ClearExact(WordAt(img, FREEMAP_BLK, i / 32), i % 32, 0);
    SetWordAt(img, FREEMAP_BLK, i / 32, ClearBit(WordAt(img, FREEMAP_BLK, i / 32), i % 32))
  }

  function Marked(img: Image, i: nat): (r: Image)
    ensures |r| == |img|
  {
    Pow32();
    SetExact(WordAt(img, FREEMAP_BLK, i / 32), i % 32, 0, 32);
    SetWordAt(img, FREEMAP_BLK, i / 32, SetBit(WordAt(img, FREEMAP_BLK, i / 32), i % 32))
  }

  lemma ClearedExact(img: Image, i: nat, j: nat)
    requires i < 8192 && j < 8192 && FREEMAP_BLK < |img|
    ensures IsFree(Cleared(img, i), j) <==> j != i && IsFree(img, j)
    ensures forall b: nat :: b < |img| && b != FREEMAP_BLK ==> Cleared(img, i)[b] == img[b]
  {
    var w := WordAt(img, FREEMAP_BLK, i / 32);
    ClearExact(w, i % 32, j % 32);
    SetWordAtFrame(img, FREEMAP_BLK, i / 32, ClearBit(w, i % 32), FREEMAP_BLK, j / 32);
    hide TestBit, ClearBit, Word, SetWord;
  }

  lemma MarkedExact(img: Image, i: nat, j: nat)
    requires i < 8192 && j < 8192 && FREEMAP_BLK < |img|
    ensures IsFree(Marked(img, i), j) <==> j == i || IsFree(img, j)
    ensures forall b: nat :: b < |img| && b != FREEMAP_BLK ==> Marked(img, i)[b] == img[b]
  {
    var w := WordAt(img, FREEMAP_BLK, i / 32);
    Pow32();
    SetExact(w, i % 32, j % 32, 32);
    SetWordAtFrame(img, FREEMAP_BLK, i / 32, SetBit(w, i % 32), FREEMAP_BLK, j / 32);
    hide TestBit, SetBit, Word, SetWord;
  }
}
