/** generate_schedule: the weekly loop that plans each week, allocates its blocks
    and emits one row per eligible day, together with the capacity warnings. */
module Schedule {
  import opened Seqs
  import opened Calendar
  import opened Planning
  import opened Leveling
  import opened Allocation

  /** The integer inputs of generate_schedule (total_blocks already rounded). */
  datatype Plan = Plan(startDate: int, weeks: nat, totalBlocks: int, treesPerBlock: int,
                       eventsPerWeek: nat, maxBlocksPerDay: nat, restOnSunday: bool)

  /** A warning: either nothing can be generated, or week `week` (1-based) needs
      more placements than its days can take. */
  datatype Warning =
    | NoBlocks
    | CapacityShortfall(week: nat, required: int, capacity: int)

  /** One row of the schedule: the day, its weekday index (0 = Monday), the
      1-based week, the number of blocks, the blocks in placement order and the
      estimated number of trees. */
  datatype Row = Row(day: int, weekday: int, week: nat, blockCount: nat, blocks: seq<int>, treesEstimate: int)

  /** The eligible days of week w (0-based) of the plan. */
  function DaysOfWeek(p: Plan, w: nat): seq<int> {
    WeekDays(p.startDate, p.weeks, w, p.restOnSunday)
  }

  /** assignments.get(d, []) */
  function BlocksOn(assignments: map<int, seq<int>>, d: int): seq<int> {
    if d in assignments then assignments[d] else []
  }

  /** The rows of one week, one per eligible day, in the order of the days. */
  function WeekRows(weekDays: seq<int>, assignments: map<int, seq<int>>, week: nat, treesPerBlock: int): (r: seq<Row>)
    ensures |r| == |weekDays|
    ensures forall i :: 0 <= i < |r| ==> r[i].day == weekDays[i] && r[i].blocks == BlocksOn(assignments, weekDays[i])
    ensures forall row :: row in r ==>
      row.week == week && row.weekday == Weekday(row.day) &&
      row.blockCount == |row.blocks| && row.treesEstimate == row.blockCount * treesPerBlock
  {
    if weekDays == [] then []
    else
      var d := weekDays[|weekDays| - 1];
      var blocks := BlocksOn(assignments, d);
      WeekRows(weekDays[..|weekDays| - 1], assignments, week, treesPerBlock)
        + [Row(d, Weekday(d), week, |blocks|, blocks, |blocks| * treesPerBlock)]
  }

  function Days(rows: seq<Row>): seq<int> {
    seq(|rows|, i requires 0 <= i < |rows| => rows[i].day)
  }

  function Counts(rows: seq<Row>): seq<int> {
    seq(|rows|, i requires 0 <= i < |rows| => rows[i].blockCount)
  }

  /** Every block listed in the rows, counted with multiplicity. */
  function BlocksOf(rows: seq<Row>): multiset<int> {
    if rows == [] then multiset{} else BlocksOf(rows[..|rows| - 1]) + multiset(rows[|rows| - 1].blocks)
  }

  /** The rows labelled with the given week, in order. */
  function OfWeek(rows: seq<Row>, week: nat): seq<Row> {
    if rows == [] then []
    else OfWeek(rows[..|rows| - 1], week) + (if rows[|rows| - 1].week == week then [rows[|rows| - 1]] else [])
  }

  /** The warning week w (0-based) contributes: one exactly when the week has
      eligible days and its demand exceeds its capacity. */
  function WeekWarning(p: Plan, w: nat): seq<Warning> {
    var days := |DaysOfWeek(p, w)|;
    var required := Required(p.totalBlocks, p.eventsPerWeek);
    var capacity := Capacity(days, p.maxBlocksPerDay);
    if days > 0 && required > capacity then [CapacityShortfall(w + 1, required, capacity)] else []
  }

  /** The warnings of the first `upTo` weeks. */
  function Shortfalls(p: Plan, upTo: nat): seq<Warning> {
    if upTo == 0 then [] else Shortfalls(p, upTo - 1) + WeekWarning(p, upTo - 1)
  }

  /** What a row of the schedule must satisfy: it lies on an eligible day of its
      week, its count and tree estimate match its list, the list respects the
      daily cap and names only existing blocks. */
  predicate RowOk(p: Plan, row: Row) {
    && 1 <= row.week <= p.weeks
    && row.day in DaysOfWeek(p, row.week - 1)
    && row.weekday == Weekday(row.day)
    && row.blockCount == |row.blocks| <= p.maxBlocksPerDay
    && row.treesEstimate == row.blockCount * p.treesPerBlock
    && (forall b :: b in row.blocks ==> 1 <= b <= p.totalBlocks)
  }

  /** What week w (0-based) of the schedule must satisfy: its rows are its
      eligible days in order, their counts are the leveled targets of
      min(required, capacity), they hold that many blocks in all, and each
      block at most events_per_week times (exactly that often when the demand
      fits the capacity). */
  ghost predicate WeekOk(p: Plan, rows: seq<Row>, w: nat) {
    var days := DaysOfWeek(p, w);
    var assignable := Assignable(p.totalBlocks, p.eventsPerWeek, |days|, p.maxBlocksPerDay);
    var mine := OfWeek(rows, w + 1);
    && Days(mine) == days
    && Counts(mine) == Targets(|days|, assignable, p.maxBlocksPerDay)
    && |BlocksOf(mine)| == assignable
    && (forall b :: 1 <= b <= p.totalBlocks ==> BlocksOf(mine)[b] <= p.eventsPerWeek)
    && (Required(p.totalBlocks, p.eventsPerWeek) <= Capacity(|days|, p.maxBlocksPerDay) ==>
          forall b :: 1 <= b <= p.totalBlocks ==> BlocksOf(mine)[b] == p.eventsPerWeek)
  }

  /** The rows of the schedule after the first w weeks. */
  ghost predicate Emitted(p: Plan, rows: seq<Row>, w: nat) {
    && Increasing(Days(rows))
    && (forall row :: row in rows ==> RowOk(p, row) && row.week <= w && row.day < WeekStart(p.startDate, w))
    && (forall x: nat :: x < w ==> WeekOk(p, rows, x))
  }

  /** A warning names week x exactly when that week has eligible days and
      required > capacity, and it carries that week's figures. */
  lemma {:induction false} ShortfallsIff(p: Plan, upTo: nat)
    ensures NoBlocks !in Shortfalls(p, upTo)
    ensures forall x: nat, required, capacity :: CapacityShortfall(x, required, capacity) in Shortfalls(p, upTo) <==>
      1 <= x <= upTo && |DaysOfWeek(p, x - 1)| > 0 &&
      required == Required(p.totalBlocks, p.eventsPerWeek) &&
      capacity == Capacity(|DaysOfWeek(p, x - 1)|, p.maxBlocksPerDay) &&
      required > capacity
  {
    if upTo > 0 {
      ShortfallsIff(p, upTo - 1);
    }
  }

  /** The warnings come in week order, one per week at most. */
  lemma {:induction false} ShortfallsOrdered(p: Plan, upTo: nat)
    ensures forall i, j :: 0 <= i < j < |Shortfalls(p, upTo)| ==>
      Shortfalls(p, upTo)[i].CapacityShortfall? && Shortfalls(p, upTo)[j].CapacityShortfall? &&
      Shortfalls(p, upTo)[i].week < Shortfalls(p, upTo)[j].week
  {
    if upTo > 0 {
      ShortfallsOrdered(p, upTo - 1);
      ShortfallsIff(p, upTo - 1);
      var s, t := Shortfalls(p, upTo - 1), WeekWarning(p, upTo - 1);
      var all: seq<Warning> := s + t;
      assert Shortfalls(p, upTo) == all;
      forall i, j | 0 <= i < j < |all|
        ensures all[i].CapacityShortfall? && all[j].CapacityShortfall? && all[i].week < all[j].week
      {
        if j >= |s| {
          assert s[i] in s;
          assert s[i] == CapacityShortfall(s[i].week, s[i].required, s[i].capacity);
          assert all[j] == t[0];
        } else {
          assert all[i] == s[i] && all[j] == s[j];
        }
      }
    } else {
      assert Shortfalls(p, upTo) == [];
    }
  }

  /** The row counts of a week add up to min(required, capacity). */
  lemma WeekTotal(p: Plan, rows: seq<Row>, w: nat)
    requires p.totalBlocks > 0 && WeekOk(p, rows, w)
    ensures Sum(Counts(OfWeek(rows, w + 1))) ==
      Min(Required(p.totalBlocks, p.eventsPerWeek), Capacity(|DaysOfWeek(p, w)|, p.maxBlocksPerDay))
  {
    var days := |DaysOfWeek(p, w)|;
    var assignable := Assignable(p.totalBlocks, p.eventsPerWeek, days, p.maxBlocksPerDay);
    if days > 0 {
      TargetsSum(days, assignable, p.maxBlocksPerDay);
      assert assignable <= days * p.maxBlocksPerDay;
    } else {
      assert Counts(OfWeek(rows, w + 1)) == [];
    }
  }

  lemma WeekRowsDays(weekDays: seq<int>, assignments: map<int, seq<int>>, week: nat, treesPerBlock: int)
    ensures Days(WeekRows(weekDays, assignments, week, treesPerBlock)) == weekDays
  {
  }

  lemma {:induction false} WeekRowsBlocks(weekDays: seq<int>, assignments: map<int, seq<int>>, week: nat, treesPerBlock: int)
    ensures BlocksOf(WeekRows(weekDays, assignments, week, treesPerBlock)) == Pooled(weekDays, assignments)
  {
    if weekDays != [] {
      WeekRowsBlocks(weekDays[..|weekDays| - 1], assignments, week, treesPerBlock);
      var r := WeekRows(weekDays, assignments, week, treesPerBlock);
      assert r[..|r| - 1] == WeekRows(weekDays[..|weekDays| - 1], assignments, week, treesPerBlock);
    }
  }

  /** Selecting a week distributes over concatenation. */
  lemma {:induction false} OfWeekConcat(a: seq<Row>, b: seq<Row>, week: nat)
    ensures OfWeek(a + b, week) == OfWeek(a, week) + OfWeek(b, week)
  {
    if b != [] {
      var init := b[..|b| - 1];
      assert (a + b)[..|a + b| - 1] == a + init;
      OfWeekConcat(a, init, week);
    } else {
      assert a + b == a;
    }
  }

  lemma {:induction false} OfWeekAll(rows: seq<Row>, week: nat)
    requires forall row :: row in rows ==> row.week == week
    ensures OfWeek(rows, week) == rows
  {
    if rows != [] {
      OfWeekAll(rows[..|rows| - 1], week);
    }
  }

  lemma {:induction false} OfWeekNone(rows: seq<Row>, week: nat)
    requires forall row :: row in rows ==> row.week != week
    ensures OfWeek(rows, week) == []
  {
    if rows != [] {
      OfWeekNone(rows[..|rows| - 1], week);
    }
  }

  lemma DemandBounds(totalBlocks: int, eventsPerWeek: nat)
    requires totalBlocks > 0
    ensures Required(totalBlocks, eventsPerWeek) >= 0
    ensures Required(totalBlocks, eventsPerWeek) <= 0 ==> eventsPerWeek == 0
  {
    if eventsPerWeek > 0 {
      assert totalBlocks * eventsPerWeek >= eventsPerWeek;
    }
  }

  /** What the allocation of week w (0-based) delivers, stated on the lists
      the rows are built from. */
  ghost predicate Allocated(p: Plan, w: nat, assignments: map<int, seq<int>>) {
    var days := DaysOfWeek(p, w);
    var assignable := Assignable(p.totalBlocks, p.eventsPerWeek, |days|, p.maxBlocksPerDay);
    && (forall i :: 0 <= i < |days| ==>
          |BlocksOn(assignments, days[i])| == Targets(|days|, assignable, p.maxBlocksPerDay)[i])
    && |Pooled(days, assignments)| == assignable
    && (forall d, b :: d in assignments && b in assignments[d] ==> 1 <= b <= p.totalBlocks)
    && (forall b :: 1 <= b <= p.totalBlocks ==> Pooled(days, assignments)[b] <= p.eventsPerWeek)
    && (Required(p.totalBlocks, p.eventsPerWeek) <= Capacity(|days|, p.maxBlocksPerDay) ==>
          forall b :: 1 <= b <= p.totalBlocks ==> Pooled(days, assignments)[b] == p.eventsPerWeek)
  }

  /** A week without eligible days is trivially allocated by empty lists. */
  lemma EmptyWeekAllocated(p: Plan, w: nat)
    requires p.totalBlocks > 0 && |DaysOfWeek(p, w)| == 0
    ensures Allocated(p, w, map[])
  {
    DemandBounds(p.totalBlocks, p.eventsPerWeek);
    assert Pooled(DaysOfWeek(p, w), map[]) == multiset{};
  }

  /** The rows of week w + 1 are valid rows lying inside that week. */
  lemma AddedRowsOk(p: Plan, w: nat, assignments: map<int, seq<int>>)
    requires w < p.weeks && Allocated(p, w, assignments)
    ensures forall row :: row in WeekRows(DaysOfWeek(p, w), assignments, w + 1, p.treesPerBlock) ==>
      RowOk(p, row) && row.week <= w + 1 && WeekStart(p.startDate, w) <= row.day < WeekStart(p.startDate, w + 1)
  {
    var days := DaysOfWeek(p, w);
    var assignable := Assignable(p.totalBlocks, p.eventsPerWeek, |days|, p.maxBlocksPerDay);
    var targets := Targets(|days|, assignable, p.maxBlocksPerDay);
    var added := WeekRows(days, assignments, w + 1, p.treesPerBlock);
    forall row | row in added
      ensures RowOk(p, row) && row.week <= w + 1 && WeekStart(p.startDate, w) <= row.day < WeekStart(p.startDate, w + 1)
    {
      var i :| 0 <= i < |added| && added[i] == row;
      assert row.day == days[i] && days[i] in days;
      assert row.blockCount == targets[i] <= p.maxBlocksPerDay;
      forall b | b in row.blocks ensures 1 <= b <= p.totalBlocks {
        assert row.day in assignments;
      }
    }
  }

  /** Days stay increasing when a later week's rows are appended. */
  lemma AppendIncreasing(rows: seq<Row>, added: seq<Row>, a: int)
    requires Increasing(Days(rows)) && Increasing(Days(added))
    requires forall row :: row in rows ==> row.day < a
    requires forall row :: row in added ==> a <= row.day
    ensures Increasing(Days(rows + added))
  {
    var all := rows + added;
    forall i, j | 0 <= i < j < |Days(all)| ensures Days(all)[i] < Days(all)[j] {
      if j >= |rows| && i < |rows| {
        assert rows[i] in rows;
        assert added[j - |rows|] in added;
      } else if i >= |rows| {
        assert Days(added)[i - |rows|] < Days(added)[j - |rows|];
      } else {
        assert Days(rows)[i] < Days(rows)[j];
      }
    }
  }

  /** Appending rows of a later week leaves an earlier week as it was. */
  lemma KeepWeek(p: Plan, rows: seq<Row>, added: seq<Row>, x: nat)
    requires WeekOk(p, rows, x)
    requires forall row :: row in added ==> row.week != x + 1
    ensures WeekOk(p, rows + added, x)
  {
    OfWeekConcat(rows, added, x + 1);
    OfWeekNone(added, x + 1);
    assert OfWeek(rows + added, x + 1) == OfWeek(rows, x + 1);
  }

  /** The counts of the rows of week w + 1 are the leveled targets. */
  lemma AddedCounts(p: Plan, w: nat, assignments: map<int, seq<int>>)
    requires Allocated(p, w, assignments)
    ensures var days := DaysOfWeek(p, w);
      Counts(WeekRows(days, assignments, w + 1, p.treesPerBlock)) ==
        Targets(|days|, Assignable(p.totalBlocks, p.eventsPerWeek, |days|, p.maxBlocksPerDay), p.maxBlocksPerDay)
  {
    var days := DaysOfWeek(p, w);
    var assignable := Assignable(p.totalBlocks, p.eventsPerWeek, |days|, p.maxBlocksPerDay);
    var targets := Targets(|days|, assignable, p.maxBlocksPerDay);
    var added := WeekRows(days, assignments, w + 1, p.treesPerBlock);
    forall i | 0 <= i < |days| ensures Counts(added)[i] == targets[i] {
      assert added[i] in added;
      assert added[i].blockCount == |BlocksOn(assignments, days[i])|;
    }
  }

  /** The rows built from the allocation of week w make week w + 1 complete. */
  lemma NewWeek(p: Plan, rows: seq<Row>, w: nat, assignments: map<int, seq<int>>)
    requires Allocated(p, w, assignments)
    requires forall row :: row in rows ==> row.week <= w
    ensures WeekOk(p, rows + WeekRows(DaysOfWeek(p, w), assignments, w + 1, p.treesPerBlock), w)
  {
    var days := DaysOfWeek(p, w);
    var assignable := Assignable(p.totalBlocks, p.eventsPerWeek, |days|, p.maxBlocksPerDay);
    var targets := Targets(|days|, assignable, p.maxBlocksPerDay);
    var added := WeekRows(days, assignments, w + 1, p.treesPerBlock);
    WeekRowsDays(days, assignments, w + 1, p.treesPerBlock);
    WeekRowsBlocks(days, assignments, w + 1, p.treesPerBlock);
    OfWeekAll(added, w + 1);
    OfWeekNone(rows, w + 1);
    OfWeekConcat(rows, added, w + 1);
    assert OfWeek(rows + added, w + 1) == added;
    AddedCounts(p, w, assignments);
  }

  /** Appending the rows of week w keeps every row valid and the days increasing. */
  lemma AppendRows(p: Plan, rows: seq<Row>, all: seq<Row>, w: nat, assignments: map<int, seq<int>>)
    requires w < p.weeks && Allocated(p, w, assignments)
    requires all == rows + WeekRows(DaysOfWeek(p, w), assignments, w + 1, p.treesPerBlock)
    requires Increasing(Days(rows))
    requires forall row :: row in rows ==> RowOk(p, row) && row.week <= w && row.day < WeekStart(p.startDate, w)
    ensures Increasing(Days(all))
    ensures forall row :: row in all ==> RowOk(p, row) && row.week <= w + 1 && row.day < WeekStart(p.startDate, w + 1)
  {
    var days := DaysOfWeek(p, w);
    var added := WeekRows(days, assignments, w + 1, p.treesPerBlock);
    AddedRowsOk(p, w, assignments);
    WeekRowsDays(days, assignments, w + 1, p.treesPerBlock);
    AppendIncreasing(rows, added, WeekStart(p.startDate, w));
    assert forall row :: row in all ==> row in rows || row in added;
  }

  /** Appending the rows of week w completes week w and keeps the earlier ones. */
  lemma AppendWeeks(p: Plan, rows: seq<Row>, all: seq<Row>, w: nat, assignments: map<int, seq<int>>)
    requires Allocated(p, w, assignments)
    requires all == rows + WeekRows(DaysOfWeek(p, w), assignments, w + 1, p.treesPerBlock)
    requires forall row :: row in rows ==> row.week <= w
    requires forall x: nat :: x < w ==> WeekOk(p, rows, x)
    ensures forall x: nat :: x < w + 1 ==> WeekOk(p, all, x)
  {
    var added := WeekRows(DaysOfWeek(p, w), assignments, w + 1, p.treesPerBlock);
    forall x: nat | x < w ensures WeekOk(p, all, x) {
      KeepWeek(p, rows, added, x);
    }
    NewWeek(p, rows, w, assignments);
  }

  /** Appending the rows of week w to the schedule of the first w weeks gives
      the schedule of the first w + 1 weeks. */
  lemma AppendWeek(p: Plan, rows: seq<Row>, w: nat, assignments: map<int, seq<int>>)
    requires w < p.weeks
    requires Emitted(p, rows, w)
    requires Allocated(p, w, assignments)
    ensures Emitted(p, rows + WeekRows(DaysOfWeek(p, w), assignments, w + 1, p.treesPerBlock), w + 1)
  {
    var all := rows + WeekRows(DaysOfWeek(p, w), assignments, w + 1, p.treesPerBlock);
    AppendRows(p, rows, all, w, assignments);
    AppendWeeks(p, rows, all, w, assignments);
    assert Emitted(p, all, w + 1);
  }

  /** What AllocateWeek promises for week w is what the rows need. */
  lemma WeekAllocated(p: Plan, w: nat, assignments: map<int, seq<int>>)
    requires p.totalBlocks > 0
    requires var days := DaysOfWeek(p, w);
      var assignable := Assignable(p.totalBlocks, p.eventsPerWeek, |days|, p.maxBlocksPerDay);
      var blockIds := MakeBlockIds(p.totalBlocks);
      && assignments.Keys == (set d | d in days)
      && (forall i :: 0 <= i < |days| ==> |assignments[days[i]]| == Targets(|days|, assignable, p.maxBlocksPerDay)[i])
      && |Pooled(days, assignments)| == assignable
      && (forall d, b :: d in assignments && b in assignments[d] ==> b in blockIds)
      && (forall b :: b in blockIds ==> Pooled(days, assignments)[b] <= p.eventsPerWeek)
      && (assignable == |blockIds| * p.eventsPerWeek ==>
            forall b :: b in blockIds ==> Pooled(days, assignments)[b] == p.eventsPerWeek)
    ensures Allocated(p, w, assignments)
  {
    var days := DaysOfWeek(p, w);
    var blockIds := MakeBlockIds(p.totalBlocks);
    forall i | 0 <= i < |days| ensures BlocksOn(assignments, days[i]) == assignments[days[i]] {
      assert days[i] in days;
    }
    forall d, b | d in assignments && b in assignments[d] ensures 1 <= b <= p.totalBlocks {
      assert b in blockIds;
    }
  }

  /** One iteration of the weekly loop: plan week w, warn when its demand
      exceeds its capacity, allocate it and append its rows. */
  method ScheduleWeek(p: Plan, blockIds: seq<int>, w: nat, rows0: seq<Row>, warnings0: seq<Warning>)
    returns (rows: seq<Row>, warnings: seq<Warning>, assignments: map<int, seq<int>>)
    requires p.totalBlocks > 0 && w < p.weeks && blockIds == MakeBlockIds(p.totalBlocks)
    requires Emitted(p, rows0, w) && warnings0 == Shortfalls(p, w)
    ensures Emitted(p, rows, w + 1) && warnings == Shortfalls(p, w + 1)
    // The earlier rows stay as they were; week w's rows are built from its allocation.
    ensures Allocated(p, w, assignments)
    ensures rows == rows0 + WeekRows(DaysOfWeek(p, w), assignments, w + 1, p.treesPerBlock)
  {
    rows, warnings, assignments := rows0, warnings0, map[];
    var weekDays := DaysOfWeek(p, w);
    if |weekDays| == 0 {
      EmptyWeekAllocated(p, w);
      AppendWeek(p, rows, w, map[]);
      assert rows + WeekRows(weekDays, map[], w + 1, p.treesPerBlock) == rows;
      assert warnings + WeekWarning(p, w) == warnings;
      return;
    }
    var required := Required(p.totalBlocks, p.eventsPerWeek);
    var capacity := Capacity(|weekDays|, p.maxBlocksPerDay);
    if required > capacity {
      warnings := warnings + [CapacityShortfall(w + 1, required, capacity)];
    }
    rows, assignments := AllocateRows(p, blockIds, w, weekDays, rows0);
  }

  /** The allocation part of one iteration: allocate min(required, capacity)
      placements over the week's days and append one row per day. */
  method AllocateRows(p: Plan, blockIds: seq<int>, w: nat, weekDays: seq<int>, rows0: seq<Row>)
    returns (rows: seq<Row>, assignments: map<int, seq<int>>)
    requires p.totalBlocks > 0 && w < p.weeks && blockIds == MakeBlockIds(p.totalBlocks)
    requires weekDays == DaysOfWeek(p, w) && |weekDays| > 0
    requires Emitted(p, rows0, w)
    ensures Emitted(p, rows, w + 1)
    ensures Allocated(p, w, assignments)
    ensures rows == rows0 + WeekRows(DaysOfWeek(p, w), assignments, w + 1, p.treesPerBlock)
  {
    var assignable := Min(Required(p.totalBlocks, p.eventsPerWeek), Capacity(|weekDays|, p.maxBlocksPerDay));
    DemandBounds(p.totalBlocks, p.eventsPerWeek);
    assignments := AllocateWeek(blockIds, weekDays, p.eventsPerWeek, p.maxBlocksPerDay, assignable);
    WeekAllocated(p, w, assignments);
    AppendWeek(p, rows0, w, assignments);
    rows := rows0 + WeekRows(weekDays, assignments, w + 1, p.treesPerBlock);
  }

  /** generate_schedule on integer inputs: no blocks gives no rows and a single
      warning; otherwise each week with eligible days is allocated and yields one
      row per eligible day, and a warning is added exactly for the weeks whose
      demand exceeds their capacity. */
  method GenerateSchedule(p: Plan) returns (rows: seq<Row>, warnings: seq<Warning>)
    ensures p.totalBlocks <= 0 ==> rows == [] && warnings == [NoBlocks]
    ensures p.totalBlocks > 0 ==> warnings == Shortfalls(p, p.weeks)
    ensures Increasing(Days(rows))
    ensures forall row :: row in rows ==> RowOk(p, row)
    ensures p.totalBlocks > 0 ==> forall w: nat :: w < p.weeks ==> WeekOk(p, rows, w)
  {
    if p.totalBlocks <= 0 {
      return [], [NoBlocks];
    }
    var blockIds := MakeBlockIds(p.totalBlocks);
    rows, warnings := [], [];
    assert Emitted(p, rows, 0);
    for w := 0 to p.weeks
      invariant Emitted(p, rows, w) && warnings == Shortfalls(p, w)
    {
      var assignments;
      rows, warnings, assignments := ScheduleWeek(p, blockIds, w, rows, warnings);
    }
  }
}
