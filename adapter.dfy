/**
 * `CoordinateAdapter`: maps an index of an upper column range to an index of
 * a lower column range through their common global coordinate, clamping
 * into the target range.  Ranges are inclusive [low, high] pairs.
 */
module Adapters {
  import opened Routing

  datatype CoordinateAdapter = CoordinateAdapter(aboveLo: int, aboveHi: int, belowLo: int, belowHi: int)
  {
    function AboveToGlobal(i: int): (g: int)
      ensures g - aboveLo == i
    {
      aboveLo + i
    }

    function BelowToGlobal(i: int): (g: int)
      ensures g - belowLo == i
    {
      belowLo + i
    }

    /** `above_to_below`: always an index of the lower range (0 when that range is empty). */
    function AboveToBelow(i: int): (r: int)
      ensures belowLo <= belowHi ==> 0 <= r <= belowHi - belowLo
      ensures belowHi < belowLo ==> r == 0
      ensures belowLo <= AboveToGlobal(i) <= belowHi ==> BelowToGlobal(r) == AboveToGlobal(i)
    {
      Clamp(AboveToGlobal(i), belowLo, belowHi) - belowLo
    }

    /** `below_to_above`: always an index of the upper range (0 when that range is empty). */
    function BelowToAbove(i: int): (r: int)
      ensures aboveLo <= aboveHi ==> 0 <= r <= aboveHi - aboveLo
      ensures aboveHi < aboveLo ==> r == 0
      ensures aboveLo <= BelowToGlobal(i) <= aboveHi ==> AboveToGlobal(r) == BelowToGlobal(i)
    {
      Clamp(BelowToGlobal(i), aboveLo, aboveHi) - aboveLo
    }
  }

  /** A lower index whose global column is also in the upper range survives the round trip. */
  lemma BelowRoundTrip(a: CoordinateAdapter, i: int)
    requires 0 <= i <= a.belowHi - a.belowLo
    requires a.aboveLo <= a.BelowToGlobal(i) <= a.aboveHi
    ensures a.AboveToBelow(a.BelowToAbove(i)) == i
  {
  }

  /** An upper index whose global column is also in the lower range survives the round trip. */
  lemma AboveRoundTrip(a: CoordinateAdapter, i: int)
    requires 0 <= i <= a.aboveHi - a.aboveLo
    requires a.belowLo <= a.AboveToGlobal(i) <= a.belowHi
    ensures a.BelowToAbove(a.AboveToBelow(i)) == i
  {
  }

  /** The class's own example: above [2, 8], below [4, 7]; upper index 2 is global 4, lower index 0. */
  lemma DocExample()
    ensures CoordinateAdapter(2, 8, 4, 7).AboveToBelow(2) == 0
    ensures CoordinateAdapter(2, 8, 4, 7).BelowToAbove(0) == 2
  {
  }
}
