# Weekly irrigation schedule allocator in Dafny

This project models the scheduling engine of `app.py`. That engine is the
`generate_schedule` function and its helpers `daterange`, `is_sunday`,
`make_block_ids` and `_even_targets`. Given a start date, a number of weeks,
a number of field blocks, and the number of watering events per block per
week, it does the following:

- It plans each seven-day week. The week's eligible days are the days inside
  the horizon, with Sundays dropped when Sunday is a rest day.
- It computes the week's demand (`required = blocks × events`), its capacity
  (`capacity = days × max_blocks_per_day`) and what can be placed
  (`assignable = min(required, capacity)`). It warns when the demand exceeds
  the capacity.
- It spreads `assignable` evenly over the days (`_even_targets`).
- It then runs `events_per_week` passes. Each pass offers the blocks one at
  a time and stops early once `assignable` placements are made.
  The block order is rotated by the pass number and the day order by the pass
  number mod D. A shared cursor walks the rotated day order. A day the block
  has not used yet is preferred; a repeat is allowed only when no fresh day
  has capacity.
- It emits one row per eligible day: the day, its weekday, the week number,
  the blocks placed there and the estimated number of trees.

Dates are integer day numbers. Day 0 is a Monday, so `Weekday(d) = d % 7`
agrees with Python's `date.weekday()`. The project has seven modules:

- `Seqs`: distinctness, ordering, `Min` and `Sum` over integer sequences.
- `Calendar`: weekdays, Sundays and `daterange`.
- `Planning`: the horizon, the eligible days of a week, the block ids and
  the weekly demand figures.
- `Rotation`: Python's slice rotation `s[k:] + s[:k]`.
- `Leveling`: `_even_targets`, as a function of positions (`Targets`) and as
  the loop that builds the dictionary (`EvenTargets`).
- `Allocation`: the allocation loop of one week.
  - The per-week dictionaries `day_remaining`, `assignments` and
    `block_day_used` become maps that the methods pass along and reassign.
  - The `for`/`while` loops become methods with loop invariants:
    `ChooseDay`, `OfferAll`, `RunPasses`, `EvenTargets`.
  - They are proved against a bookkeeping predicate (`Progress`). It ties the
    remaining capacity, the running count and the per-block tally to the
    leveled targets.
- `Schedule`: the weekly loop of `generate_schedule`. It is stated against
  the reference predicates `WeekOk` and `RowOk` and the warning list
  `Shortfalls`.

The main results:

- Every week's rows are its eligible days in calendar order.
- Each day holds exactly its leveled target. The targets sum to
  `min(required, capacity)`.
- Every listed block exists. No block is placed more than `events_per_week`
  times in a week. When the demand fits, every block is placed exactly
  `events_per_week` times.
- A warning is issued for a week exactly when its demand exceeds its
  capacity, and warnings come in week order.
- The "no capacity left" exit of the day search can never be taken.
- With the horizon always made of whole weeks, the "no eligible day" skip can
  never be taken: each week has 7 eligible days, or 6 when Sunday is a rest
  day.

One might expect no block to land twice on a day whenever
`events_per_week <= D`. The code does not guarantee this: it avoids a repeat
only "if possible" (app.py:102), that is, only when a fresh day still has
capacity. For example, take three days, two
blocks, two events and a cap of 2. In the second pass, block 1 finds its only
fresh days full and goes back to the first day. The model follows the code.
It states the guarantee the code does make, in `ChooseDay` and
`OfferBlock`: a repeat is taken only when every day with capacity left
already holds the block.

## Model

| member | source | states |
|---|---|---|
| Calendar.DateRange | app.py:11-15 | every day from start to end inclusive, in order, one per position; empty when end is before start |
| Calendar.OneSundayPerWeek | app.py:18-20 | any seven consecutive days contain exactly one Sunday, at a known offset |
| Planning.WeekDays | app.py:71-77 | a day is eligible in week w iff it lies in the week's seven-day window, inside the horizon, and is not a Sunday when Sunday is a rest day; the days are increasing |
| Planning.WeekDaysCount | app.py:75-80 | every week of the horizon has 7 eligible days, or 6 with Sunday rest, so the skip of a week without days never happens |
| Planning.MakeBlockIds | app.py:23-24 | the ids 1 .. total_blocks in order, without repeats; empty when total_blocks <= 0 |
| Rotation.RotateLeft | app.py:109-110 | same length as the input; the input unchanged once k reaches its length (the block rotation is not taken mod n) |
| Rotation.RotateLeftIsSlices | app.py:109-110 | the rotation equals the slice expression s[k:] + s[:k] |
| Rotation.RotateLeftAt | app.py:109-110 | for k < |s|, position i of the rotation holds s[(i + k) mod |s|] |
| Rotation.RotateLeftPermutes | app.py:109-110 | a rotation keeps every element with its multiplicity, so it holds exactly the elements of its input |
| Rotation.RotateLeftDistinct | app.py:109 | rotating a list without repeats gives a list without repeats |
| Leveling.Targets | app.py:34-43 | D targets, none above the cap, non-increasing along the days and differing by at most one; non-negative for non-negative inputs |
| Leveling.TargetsSum | app.py:34-43 | the targets add up to min(total, D × cap) |
| Leveling.SumUnderCap | app.py:37-43 | when D × cap can hold the total, no target is cut (each is total // D, plus one for the first total % D days) and they sum to the total |
| Leveling.SumOverCap | app.py:37-43 | when the total exceeds D × cap, every target is the cap and they sum to D × cap |
| Leveling.EvenTargets | app.py:27-44 | the dictionary has exactly the given days as keys (none for no days), and each day's value is its positional target |
| Allocation.ChooseDay | app.py:117-140 | from the shared cursor, the first fresh day with capacity; else the first day with capacity, and only when no day is fresh; nothing exactly when no day has capacity; the cursor stops on the chosen day |
| Allocation.HasOpenDay | app.py:141-143 | while fewer than assignable placements are made, some day has capacity left, so the "no capacity" exit is never taken |
| Allocation.PlaceKeepsLedger | app.py:145-147 | appending the block to the day's list, marking the day used for the block and decrementing the day's remaining capacity keeps the bookkeeping consistent |
| Allocation.PlaceProgress | app.py:145-148 | placing the next block of a pass keeps the bookkeeping, with one more block placed and one more offered |
| Allocation.OfferBlock | app.py:117-149 | the block goes to the day ChooseDay finds from the cursor: the first fresh day with capacity in the day order, else the first day with capacity, a repeat only when every day with capacity holds the block; that day's list gains the block, its remaining capacity drops by one, it is marked used for the block, the count rises by one and the cursor moves one past it, nothing else changes; the bookkeeping advances by one |
| Allocation.PassComplete | app.py:113-115 | after a pass, whether complete or cut off, each block has gained at most one placement, and exactly one when nothing was cut off |
| Allocation.OfferAll | app.py:111-149 | a pass over the given block order keeps the bookkeeping: each block gains at most one placement, and exactly one when the pass is not cut off by reaching assignable |
| Allocation.PassOrder | app.py:109-110 | the pass orders are the rotations by k and by k mod D, and are rearrangements of the block ids and the days |
| Allocation.Pass | app.py:108-149 | pass k gives each block at most one more placement, and exactly one while the demand is not cut |
| Allocation.RunPasses | app.py:107-149 | after events_per_week passes the bookkeeping holds with events_per_week placements per block as the bound |
| Allocation.StartWeek | app.py:90-105 | the starting state (targets as remaining capacity, empty lists, no used days) satisfies the bookkeeping |
| Allocation.FinishProgress | app.py:100-149 | at the end of the week each day holds exactly its target, the week holds assignable blocks, all of them known, each at most events_per_week times, exactly that often when nothing was cut |
| Allocation.AllocateWeek | app.py:89-149 | the allocation of one week: each day's list has its leveled target length, assignable placements in all, only known blocks, each block at most events_per_week times and exactly that often when the demand fits |
| Schedule.WeekRows | app.py:160-172 | one row per eligible day in the order of the days, with the day's blocks, its weekday, the week number, the count and the tree estimate |
| Schedule.WeekRowsDays | app.py:160-167 | the rows of a week are its days in order |
| Schedule.WeekRowsBlocks | app.py:160-171 | the blocks listed in a week's rows are exactly the blocks allocated that week |
| Schedule.ShortfallsIff | app.py:84-98 | a capacity warning names week x iff that week has eligible days and required > capacity, and it carries those figures; the no-blocks warning never appears there |
| Schedule.ShortfallsOrdered | app.py:70-98 | the warnings come one per week at most, in week order |
| Schedule.WeekTotal | app.py:84-90 | a week's row counts add up to min(required, capacity) |
| Schedule.EmptyWeekAllocated | app.py:79-80 | a week without eligible days contributes nothing |
| Schedule.AddedRowsOk | app.py:160-177 | every row of a week lies on an eligible day of that week, has the cap-respecting count and the tree estimate, and names only existing blocks |
| Schedule.AppendWeek | app.py:160-178 | appending a week's rows to the schedule of the earlier weeks gives the schedule of one more week |
| Schedule.ScheduleWeek | app.py:70-178 | one iteration of the weekly loop keeps the earlier rows and appends the rows built from the week's allocation (returned beside them), and appends exactly week w's warning to the warnings |
| Schedule.AllocateRows | app.py:84-178 | for a week with eligible days, allocates min(required, capacity) placements as AllocateWeek promises and appends one row per day to the earlier rows unchanged |
| Schedule.GenerateSchedule | app.py:59-180 | no blocks gives no rows and one warning; otherwise the rows are increasing, every row is valid, every week is complete and leveled, and the warnings are exactly the capacity shortfalls |

## Left out

- The Streamlit user interface, the Excel/CSV export and the DataFrame wrapper are not modelled; the model returns the rows as a sequence.
- `ha` and `blocks_per_ha` are floats; the model takes `total_blocks = int(round(ha * blocks_per_ha))` as an integer input, because floating point and Python's rounding are outside the model.
- The water figures (`liters_per_tree_per_unit`, liters and m³ per row, the `water_split_mode` label) are float arithmetic and are not modelled; a row keeps the tree estimate, which is integer.
- Date formatting (`isoformat`), the Japanese weekday label and the joined block-list string are presentation; a row keeps the day number, the weekday index and the list itself.
- The warning texts are replaced by the `Warning` datatype. A capacity warning keeps the week number, required and capacity; the other figures in the text (total_blocks, events_per_week, D and max_blocks_per_day) are not stored in it.
- The `meta` dictionary returned beside the rows is not modelled beyond the warnings.
- `events_per_week` and `max_blocks_per_day` are natural numbers; negative values, which the user interface does not allow, are not modelled.
- Schedule.ScheduleWeek: keeps the `continue` for a week without eligible days as an early return, although Planning.WeekDaysCount shows it cannot happen.
- Allocation.OfferBlock: the `break` taken when no day has capacity is kept as an unreachable branch, since HasOpenDay shows some day always has capacity there.
- Allocation.ChooseDay: does not promise that a block never repeats a day whenever events_per_week <= D, because the code does not keep that promise (see above).
- Allocation.OfferAll: does not state which blocks a pass that is cut off places, only how many times each block can have been placed.
- Allocation.Pass: does not state in its contract that a pass offers the blocks in the rotated block order and walks the rotated day order from a reset cursor; only PassOrder states the two orders, and OfferAll and RunPasses state the resulting bookkeeping and counts, not the order of the placements.
