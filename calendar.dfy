/** Dates as integer day numbers. Day numbers count from a Monday, so that
    Weekday agrees with Python's date.weekday(): Monday is 0 and Sunday is 6. */
module Calendar {

  const SundayIndex := 6

  function Weekday(d: int): (r: int)
    ensures 0 <= r < 7
  {
    d % 7
  }

  predicate IsSunday(d: int) {
    Weekday(d) == SundayIndex
  }

  /** The generator daterange(start, end): every day from start to end inclusive,
      in calendar order, and nothing when end is before start. */
  function DateRange(start: int, end: int): (r: seq<int>)
    decreases end - start
    ensures |r| == if start <= end then end - start + 1 else 0
    ensures forall i :: 0 <= i < |r| ==> r[i] == start + i
    ensures forall d :: d in r <==> start <= d <= end
  {
    if start > end then [] else [start] + DateRange(start + 1, end)
  }

  /** Among any seven consecutive days exactly one is a Sunday, and it is a + (6 - a % 7). */
  lemma OneSundayPerWeek(a: int)
    ensures IsSunday(a + (6 - a % 7))
    ensures forall d :: a <= d < a + (6 - a % 7) ==> !IsSunday(d)
    ensures forall d :: a + (6 - a % 7) < d <= a + 6 ==> !IsSunday(d)
  {
    var s := a + (6 - a % 7);
    assert s == 7 * (a / 7) + 6;
    forall d | a <= d < s ensures !IsSunday(d) {
      assert d == 7 * (a / 7) + (a % 7 + (d - a));
    }
    forall d | s < d <= a + 6 ensures !IsSunday(d) {
      assert d == 7 * (a / 7 + 1) + (d - s - 1);
    }
  }
}
