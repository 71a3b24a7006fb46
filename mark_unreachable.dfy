/** The house-number lookup of src/basic/mark_unreachable.py. */
module HouseNumbers {
  /** The street whose numbers are taken. */
  const MainStreet: string := "Main St"

  /** The numbers taken on that street. */
  const TakenNumbers: seq<int> := [1, 2, 3, 10, 11, 12]

  /** `is_used`: whether `number` is taken on `street`. */
  predicate IsUsed(street: string, number: int): (r: bool)
    ensures r <==> street == MainStreet && (1 <= number <= 3 || 10 <= number <= 12)
  {
    street == MainStreet && number in TakenNumbers
  }

  /** `lowest_unused`: scans 1, 2, 3, ... and returns the first number
      that is not taken. The scan always stops, so the `assert False`
      after it is never reached. */
  method LowestUnused(street: string) returns (i: int)
    ensures i >= 1 && !IsUsed(street, i)
    ensures forall j | 1 <= j < i :: IsUsed(street, j)
  {
    i := 1;
    while true
      invariant 1 <= i <= 4
      invariant forall j | 1 <= j < i :: IsUsed(street, j)
      decreases 4 - i
    {
      if !IsUsed(street, i) {
        return;
      }
      i := i + 1;
    }
    assert false;
  }

  /** The lowest free number is 4 on the main street, where 1 to 3 are
      taken, and 1 on any other street. */
  lemma LowestUnusedValue(street: string, i: int)
    requires i >= 1 && !IsUsed(street, i)
    requires forall j | 1 <= j < i :: IsUsed(street, j)
    ensures i == if street == MainStreet then 4 else 1
  {
    if street == MainStreet {
      assert IsUsed(street, 1) && IsUsed(street, 2) && IsUsed(street, 3) && !IsUsed(street, 4);
    } else {
      assert !IsUsed(street, 1);
    }
  }
}
