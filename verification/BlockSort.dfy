// BZ2_blockSort: the choice between the two engines, and the row of rotation 0.
module BlockSort {
  import opened Perms
  import opened Rotations
  import FallbackSort
  import MainSort

  // How much work the main sort may do before it is abandoned.
  function Budget(nblock: int, workFactor: int): int {
    var wfact := if workFactor < 1 then 1 else if workFactor > 100 then 100 else workFactor;
    nblock * ((wfact - 1) / 3)
  }

  // The row that holds rotation 0.
  method FindOrigin(ptr: array<int>, nblock: int) returns (origPtr: int)
    requires 0 < nblock <= ptr.Length && IsPerm(ptr[..nblock], nblock)
    ensures 0 <= origPtr < nblock && ptr[origPtr] == 0
  {
    origPtr := -1;
    for i := 0 to nblock
      invariant origPtr == -1 && forall k :: 0 <= k < i ==> ptr[k] != 0
    {
      if ptr[i] == 0 {
        origPtr := i;
        break;
      }
    }
    if origPtr == -1 {
      ghost var k := PermHits(ptr[..nblock], nblock, 0);
    }
  }

  // Whichever engine runs, to the end or after the other has given up, the result is the
  // rotation order of the block, and the block itself is intact.
  method Sort(ptr: array<int>, eclass: array<int>, block: array<byte>, quadrant: array<int>, ftab: array<int>, bh: array<bool>,
              nblock: int, workFactor: int)
    returns (origPtr: int)
    requires ptr != eclass && ptr != quadrant && ptr != ftab && quadrant != ftab && ftab.Length == 65537
    requires 0 < nblock <= 900000 && nblock == ptr.Length <= eclass.Length && block.Length == quadrant.Length == nblock + 34
    requires 32 * (3 + nblock / 32) <= bh.Length
    modifies ptr, eclass, block, quadrant, ftab, bh
    ensures SortedOrder(old(block[..nblock]), ptr[..]) && block[..nblock] == old(block[..nblock])
    ensures 0 <= origPtr < nblock && ptr[origPtr] == 0
  {
    ghost var b := block[..nblock];
    if nblock < 10000 {
      FallbackSort.FallbackSort(ptr, eclass, block, bh, nblock);
    } else {
      var budget := MainSort.Sort(ptr, block, quadrant, ftab, nblock, Budget(nblock, workFactor));
      if budget < 0 {
        FallbackSort.FallbackSort(ptr, eclass, block, bh, nblock);
      }
    }
    assert ptr[..nblock] == ptr[..];
    origPtr := FindOrigin(ptr, nblock);
  }
}
