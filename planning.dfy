/** The demand planner of generate_schedule: the horizon, each week's eligible
    days, the block ids, and the weekly required / capacity / assignable counts. */
module Planning {
  import opened Seqs
  import opened Calendar

  /** end_date: the last day of the last week. */
  function HorizonEnd(start: int, weeks: nat): int {
    start + weeks * 7 - 1
  }

  function WeekStart(start: int, w: nat): int {
    start + w * 7
  }

  /** The days of s that lie within [lo, hi], in their order in s. */
  function ClipTo(s: seq<int>, lo: int, hi: int): (r: seq<int>)
    ensures forall d :: d in r <==> d in s && lo <= d <= hi
    ensures Increasing(s) ==> Increasing(r)
  {
    if s == [] then []
    else
      var rest := ClipTo(s[1..], lo, hi);
      assert forall d :: d in s[1..] ==> d in s;
      if lo <= s[0] <= hi then
        (if Increasing(s) then IncreasingTail(s); IncreasingCons(s[0], rest); [s[0]] + rest
         else [s[0]] + rest)
      else rest
  }

  /** The days of s that are not Sundays, in their order in s. */
  function DropSundays(s: seq<int>): (r: seq<int>)
    ensures forall d :: d in r <==> d in s && !IsSunday(d)
    ensures Increasing(s) ==> Increasing(r)
  {
    if s == [] then []
    else
      var rest := DropSundays(s[1..]);
      assert forall d :: d in s[1..] ==> d in s;
      if IsSunday(s[0]) then rest
      else if Increasing(s) then IncreasingTail(s); IncreasingCons(s[0], rest); [s[0]] + rest
      else [s[0]] + rest
  }

  /** week_days of week w: its seven-day window clipped to the horizon, without
      Sundays when restOnSunday is set; in calendar order. */
  function WeekDays(start: int, weeks: nat, w: nat, restOnSunday: bool): (r: seq<int>)
    ensures Increasing(r)
    ensures forall d :: d in r <==>
      WeekStart(start, w) <= d <= WeekStart(start, w) + 6 &&
      start <= d <= HorizonEnd(start, weeks) &&
      !(restOnSunday && IsSunday(d))
  {
    var window := DateRange(WeekStart(start, w), WeekStart(start, w) + 6);
    var inHorizon := ClipTo(window, start, HorizonEnd(start, weeks));
    if restOnSunday then DropSundays(inHorizon) else inHorizon
  }

  lemma {:induction false} ClipToAll(s: seq<int>, lo: int, hi: int)
    requires forall d :: d in s ==> lo <= d <= hi
    ensures ClipTo(s, lo, hi) == s
  {
    if s != [] {
      assert forall d :: d in s[1..] ==> d in s;
      assert s[0] in s;
      ClipToAll(s[1..], lo, hi);
      assert s == [s[0]] + s[1..];
    }
  }

  lemma {:induction false} DropSundaysNone(s: seq<int>)
    requires forall d :: d in s ==> !IsSunday(d)
    ensures DropSundays(s) == s
  {
    if s != [] {
      assert forall d :: d in s[1..] ==> d in s;
      assert s[0] in s;
      DropSundaysNone(s[1..]);
      assert s == [s[0]] + s[1..];
    }
  }

  lemma {:induction false} DropSundaysConcat(x: seq<int>, y: seq<int>)
    ensures DropSundays(x + y) == DropSundays(x) + DropSundays(y)
  {
    if x != [] {
      assert (x + y)[1..] == x[1..] + y;
      DropSundaysConcat(x[1..], y);
    } else {
      assert x + y == y;
    }
  }

  lemma DateRangeSplit(a: int, m: int, b: int)
    requires a <= m <= b + 1
    ensures DateRange(a, b) == DateRange(a, m - 1) + DateRange(m, b)
  {
  }

  /** Every week of the horizon has seven eligible days, or six when Sundays
      are rest days; so the "no eligible day" skip never happens. */
  lemma WeekDaysCount(start: int, weeks: nat, w: nat, restOnSunday: bool)
    requires w < weeks
    ensures |WeekDays(start, weeks, w, restOnSunday)| == if restOnSunday then 6 else 7
  {
    var a := WeekStart(start, w);
    var window := DateRange(a, a + 6);
    assert a + 6 <= HorizonEnd(start, weeks);
    ClipToAll(window, start, HorizonEnd(start, weeks));
    if restOnSunday {
      SevenDaysSixWorkdays(a);
    }
  }

  lemma SevenDaysSixWorkdays(a: int)
    ensures |DropSundays(DateRange(a, a + 6))| == 6
  {
    var s := a + (6 - a % 7);
    OneSundayPerWeek(a);
    DateRangeSplit(a, s, a + 6);
    DateRangeSplit(s, s + 1, a + 6);
    var before, sunday, after := DateRange(a, s - 1), DateRange(s, s), DateRange(s + 1, a + 6);
    assert DateRange(a, a + 6) == before + (sunday + after);
    DropSundaysConcat(before, sunday + after);
    DropSundaysConcat(sunday, after);
    DropSundaysNone(before);
    DropSundaysNone(after);
    assert sunday == [s];
    assert DropSundays(sunday) == [];
  }

  /** make_block_ids: the ids 1 .. totalBlocks in order (none when totalBlocks <= 0). */
  function MakeBlockIds(totalBlocks: int): (r: seq<int>)
    ensures |r| == if totalBlocks > 0 then totalBlocks else 0
    ensures forall i :: 0 <= i < |r| ==> r[i] == i + 1
    ensures Distinct(r)
    ensures forall b :: b in r <==> 1 <= b <= totalBlocks
  {
    if totalBlocks <= 0 then [] else MakeBlockIds(totalBlocks - 1) + [totalBlocks]
  }

  /** required = total_blocks * events_per_week */
  function Required(totalBlocks: int, eventsPerWeek: nat): int {
    totalBlocks * eventsPerWeek
  }

  /** capacity = D * max_blocks_per_day */
  function Capacity(days: nat, maxBlocksPerDay: nat): nat {
    days * maxBlocksPerDay
  }

  /** assignable = min(required, capacity) */
  function Assignable(totalBlocks: int, eventsPerWeek: nat, days: nat, maxBlocksPerDay: nat): int {
    Min(Required(totalBlocks, eventsPerWeek), Capacity(days, maxBlocksPerDay))
  }
}
