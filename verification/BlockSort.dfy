/** BZ2_blockSort (dep/bzip2/blocksort.c): which sort is used, and where rotation 0 ends up. */
module BlockSort {
  import opened Bits
  import opened Rotations
  import opened FallbackPass
  import FallbackSort
  import MainSort

  /** The work that mainSort may do before it gives up. */
  function BudgetFor(nblock: nat, workFactor: int): (budget: nat)
    ensures workFactor <= 3 ==> budget == 0
    ensures budget <= 33 * nblock
  {
    var wfact := if workFactor < 1 then 1 else if workFactor > 100 then 100 else workFactor;
    nblock * ((wfact - 1) / 3)
  }

  lemma SortedIsPerm(block: seq<byte>, f: seq<nat>)
    requires IsOrder(block, f)
    ensures IsPerm(f, |block|)
  {
  }

  /**
   BZ2_blockSort: small blocks by fallbackSort, others by mainSort, and those that are too repetitive for it by fallbackSort
   after all. Whichever it was, the rotations are in order, the block is unchanged, and the search for rotation 0 does not
   fail (assertion 1003).
   */
  method BlockSort(ptr: array<nat>, eclass: array<nat>, block8: array<byte>, bh: array<bool>, nblock: nat, workFactor: int)
    returns (origPtr: nat)
    requires ptr != eclass && ptr as object != block8 && ptr as object != bh
    requires eclass as object != block8 && eclass as object != bh && block8 as object != bh
    requires nblock == ptr.Length && 1 <= nblock <= 900000
    requires nblock <= eclass.Length && nblock + 34 <= block8.Length && nblock + 64 <= bh.Length
    modifies ptr, eclass, block8, bh
    ensures block8[..nblock] == old(block8[..nblock])
    ensures IsOrder(block8[..nblock], ptr[..])
    ensures origPtr < nblock && ptr[origPtr] == 0
  {
    hide *;
    ghost var block := block8[..nblock];
    if nblock < 10000 {
      FallbackSort.FallbackSort(ptr, eclass, block8, bh, nblock, block);
    } else {
      var quadrant, ftab := new nat[nblock + 34], new nat[65537];
      var budget := MainSort.MainSort(ptr, block8, quadrant, ftab, nblock, BudgetFor(nblock, workFactor), block);
      if budget < 0 {
        FallbackSort.FallbackSort(ptr, eclass, block8, bh, nblock, block);
      }
    }
    SortedIsPerm(block, ptr[..]);
    ghost var m := PermHas(ptr[..], nblock, 0);
    origPtr := nblock;
    var i := 0;
    while i < nblock
      invariant 0 <= i <= nblock && origPtr == nblock && forall k :: 0 <= k < i ==> ptr[k] != 0
    {
      if ptr[i] == 0 {
        origPtr := i;
        break;
      }
      i := i + 1;
    }
  }
}
