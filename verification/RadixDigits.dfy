/** Indices and paths: an index below a tree of height h is the path of its digits, one per level. */
module RadixDigits {
  import opened Stride
  import opened RadixTree

  /** m to the power h: the number of indices under a tree of height h, shift_maxindex() + 1. */
  function Cap(h: nat, m: Fanout): (c: nat)
    ensures c >= 1
  {
    if h == 0 then 1
    else
      BaseGrows(m, Cap(h - 1, m));
      Base(m, Cap(h - 1, m))
  }

  lemma {:induction false} BaseGrows(m: nat, c: nat)
    requires m >= 2 && c >= 1
    ensures Base(m, c) >= c + c
  {
    assert Base(1, c) == c;
    if m > 2 {
      BaseGrows(m - 1, c);
    }
  }

  lemma CapGrows(h: nat, m: Fanout)
    ensures Cap(h + 1, m) > Cap(h, m)
  {
    BaseGrows(m, Cap(h, m));
  }

  /** The path to index i: at each level `(index >> shift) & RADIX_TREE_MAP_MASK`. */
  function Digits(i: nat, h: nat, m: Fanout): Path {
    if h == 0 then End
    else
      var c := Cap(h - 1, m);
      Step(Slot(i, c), Digits(Rest(i, c), h - 1, m))
  }

  lemma {:induction false} DigitsFit(i: nat, h: nat, m: Fanout)
    requires i < Cap(h, m)
    ensures Fits(Digits(i, h, m), h, m)
  {
    if h > 0 {
      var c := Cap(h - 1, m);
      SlotBelow(i, m, c);
      DigitsFit(Rest(i, c), h - 1, m);
    }
  }

  lemma {:induction false} DigitsDiffer(i: nat, j: nat, h: nat, m: Fanout)
    requires i < Cap(h, m) && j < Cap(h, m) && i != j
    ensures Digits(i, h, m) != Digits(j, h, m)
  {
    if h > 0 {
      var c := Cap(h - 1, m);
      SplitIs(i, c);
      SplitIs(j, c);
      if Slot(i, c) == Slot(j, c) {
        DigitsDiffer(Rest(i, c), Rest(j, c), h - 1, m);
      }
    }
  }

  /** Index r below slot k. */
  lemma DigitsJoin(k: nat, r: nat, h: nat, m: Fanout)
    requires k < m && r < Cap(h, m)
    ensures Base(k, Cap(h, m)) + r < Cap(h + 1, m)
    ensures Digits(Base(k, Cap(h, m)) + r, h + 1, m) == Step(k, Digits(r, h, m))
  {
    SplitOf(k, r, Cap(h, m));
    BaseOrder(k, m, Cap(h, m));
  }

  /** Every path is some index. */
  lemma {:induction false} PathIsIndex(p: Path, h: nat, m: Fanout) returns (i: nat)
    requires Fits(p, h, m)
    ensures i < Cap(h, m) && Digits(i, h, m) == p
  {
    if h == 0 {
      i := 0;
    } else {
      var r := PathIsIndex(p.rest, h - 1, m);
      DigitsJoin(p.slot, r, h - 1, m);
      i := Base(p.slot, Cap(h - 1, m)) + r;
    }
  }

  /** One level more puts a zero digit in front of the old indices and another digit in front of the new ones. */
  lemma DigitsAbove(i: nat, h: nat, m: Fanout)
    requires i < Cap(h + 1, m)
    ensures i < Cap(h, m) ==> Digits(i, h + 1, m) == Step(0, Digits(i, h, m))
    ensures i >= Cap(h, m) ==> Digits(i, h + 1, m).slot > 0
  {
  }

  /** A tree with its height, and the tag that its root holds for it. */
  datatype Root = Root(head: Tree, height: nat, tag: bool)

  /** radix_tree_lookup(), idr_find() and xa_load(); 0 for nothing. */
  function Lookup(r: Root, m: Fanout, i: nat): nat {
    if i >= Cap(r.height, m) then 0 else Get(r.head, Digits(i, r.height, m))
  }
}
