/**
 * Navigate: moving from an element of a list of search results (or of
 * referred objects) to its siblings. Elements are numbered from 1 to
 * `total`; `number` is the current one.
 */
module Navigate {
  import Py

  datatype SiblingType = Previous | Next | First | Last

  /** Sibling.getSiblingIndex: the 0-based index of the sibling to go to. */
  function GetSiblingIndex(t: SiblingType, number: int, total: int): (r: int)
    ensures t == First ==> r == 0
    ensures t == Last ==> r == total - 1
    ensures t == Previous ==> r == (number - 1) - 1
    ensures t == Next ==> r == (number - 1) + 1
  {
    match t
    case Last => total - 1
    case Next => number
    case Previous => number - 2
    case First => 0
  }

  /** The flags and indices Siblings.__init__ computes. */
  datatype Flags = Flags(previousNeeded: bool, nextNeeded: bool, firstNeeded: bool, lastNeeded: bool)

  function SiblingFlags(number: int, total: int): Flags
  {
    var previousIndex := number - 2;
    var nextIndex := number;
    var lastIndex := total - 1;
    Flags(previousIndex > -1 && total > previousIndex,
          nextIndex < total,
          previousIndex > 0,
          nextIndex < lastIndex)
  }

  function Needed(f: Flags, t: SiblingType): bool
  {
    match t
    case Previous => f.previousNeeded
    case Next => f.nextNeeded
    case First => f.firstNeeded
    case Last => f.lastNeeded
  }

  /**
   * For a current element within the list, an icon is shown exactly for the
   * siblings that exist and differ from the current element (and, for first
   * and last, from the previous and next one): each leads to a valid index.
   */
  lemma {:induction false} SiblingFlagsMeaning(number: int, total: int)
    requires 1 <= number <= total
    ensures var f := SiblingFlags(number, total);
            (f.previousNeeded <==> number > 1)
            && (f.nextNeeded <==> number < total)
            && (f.firstNeeded <==> number > 2)
            && (f.lastNeeded <==> number < total - 1)
    ensures forall t: SiblingType | Needed(SiblingFlags(number, total), t) ::
              0 <= GetSiblingIndex(t, number, total) < total
              && GetSiblingIndex(t, number, total) != number - 1
  {
  }

  /** The start of the batch holding element `number`: the first multiple of the batch size whose batch reaches it, but no further than `total`. */
  function StartNumber(number: int, total: int, batchSize: int): (r: int)
    requires batchSize > 0
    decreases if total > 0 then total else 0
  {
    if total <= 0 || number - 1 < batchSize then 0
    else batchSize + StartNumber(number - batchSize, total - batchSize, batchSize)
  }

  /** Siblings.computeStartNumber; the batch size comes from the search or the Ref field and is positive. */
  method ComputeStartNumber(number: int, total: int, batchSize: int) returns (r: int)
    requires batchSize > 0
    ensures r == StartNumber(number, total, batchSize)
  {
    var n := number - 1;
    r := 0;
    while r < total
      invariant r >= 0
      invariant StartNumber(number, total, batchSize) == r + StartNumber(number - r, total - r, batchSize)
      decreases total - r
    {
      if n < r + batchSize {
        return r;
      }
      r := r + batchSize;
    }
  }

  /** The batch computed holds the current element: it starts at a multiple of the batch size, at or before it, and the element is within it. */
  lemma {:induction false} StartNumberHoldsElement(number: int, total: int, batchSize: int)
    requires batchSize > 0 && 1 <= number <= total
    ensures var r := StartNumber(number, total, batchSize);
            r % batchSize == 0 && r <= number - 1 < r + batchSize
    decreases total
  {
    if number - 1 >= batchSize {
      StartNumberHoldsElement(number - batchSize, total - batchSize, batchSize);
      var r0 := StartNumber(number - batchSize, total - batchSize, batchSize);
      assert (r0 + batchSize) % batchSize == 0 by {
        Py.DivModUnique(r0 + batchSize, batchSize, r0 / batchSize + 1, 0);
      }
    }
  }
}
