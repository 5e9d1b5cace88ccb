/** The leveled allocator of generate_schedule: for each pass, rotated blocks
    are placed on days in rotated order, avoiding a second copy of a block on a
    day while some other day with remaining capacity lacks it. The bookkeeping
    (remaining capacity per day, days already used per block) is local to one
    week's allocation, as in the source. */
module Allocation {
  import opened Seqs
  import opened Rotation
  import opened Leveling

  datatype Option<T> = None | Some(value: T)

  /** day_remaining.get(d, 0) */
  function Get(remaining: map<int, int>, d: int): int {
    if d in remaining then remaining[d] else 0
  }

  /** What the first probe round accepts: a day with remaining capacity that
      does not yet hold the block. */
  predicate Fresh(remaining: map<int, int>, used: set<int>, d: int) {
    Get(remaining, d) > 0 && d !in used
  }

  /** A position q < n is reached as p % n by exactly one p of any n consecutive
      cursor positions. */
  lemma WindowPosition(cursor: int, n: int, q: int) returns (p: int)
    requires n > 0 && 0 <= q < n
    ensures cursor <= p < cursor + n && p % n == q
  {
    var base := cursor - cursor % n;
    assert base == n * (cursor / n);
    p := if q >= cursor % n then base + q else base + n + q;
    var m := if q >= cursor % n then cursor / n else cursor / n + 1;
    assert p == m * n + q;
    DivModUnique(p, n, m, q);
  }

  /** The day lookup for block b (the two `while tries < D` rounds): starting at
      the shared cursor, probe the rotated day order for a fresh day; failing
      that, probe again for any day with remaining capacity. `next` is the cursor
      after the lookup, pointing at the chosen day. */
  method ChooseDay(dayOrder: seq<int>, cursor: nat, remaining: map<int, int>, used: set<int>)
    returns (chosen: Option<int>, next: nat)
    requires |dayOrder| > 0
    ensures chosen.Some? ==> chosen.value == dayOrder[next % |dayOrder|] && Get(remaining, chosen.value) > 0
    // First round: the first fresh day at or after the cursor.
    ensures chosen.Some? && chosen.value !in used ==>
      cursor <= next < cursor + |dayOrder| &&
      forall p :: cursor <= p < next ==> !Fresh(remaining, used, dayOrder[p % |dayOrder|])
    // Second round, reached only when no day is fresh: a repeat is taken only
    // when every day with remaining capacity already holds the block.
    ensures chosen.Some? && chosen.value in used ==>
      cursor + |dayOrder| <= next < cursor + 2 * |dayOrder| &&
      (forall d :: d in dayOrder ==> !Fresh(remaining, used, d)) &&
      forall p :: cursor + |dayOrder| <= p < next ==> Get(remaining, dayOrder[p % |dayOrder|]) <= 0
    // Nothing is chosen exactly when no day has remaining capacity.
    ensures chosen.None? <==> forall d :: d in dayOrder ==> Get(remaining, d) <= 0
    ensures chosen.None? ==> next == cursor + 2 * |dayOrder|
  {
    var n := |dayOrder|;
    var dayIdx := cursor;
    chosen := None;
    var tries := 0;
    while tries < n
      invariant 0 <= tries <= n && dayIdx == cursor + tries
      invariant forall p :: cursor <= p < dayIdx ==> !Fresh(remaining, used, dayOrder[p % n])
    {
      var d := dayOrder[dayIdx % n];
      if Get(remaining, d) > 0 && d !in used {
        chosen := Some(d);
        break;
      }
      dayIdx := dayIdx + 1;
      tries := tries + 1;
    }
    if chosen.None? {
      forall d | d in dayOrder ensures !Fresh(remaining, used, d) {
        var q :| 0 <= q < n && dayOrder[q] == d;
        var p := WindowPosition(cursor, n, q);
      }
      tries := 0;
      while tries < n
        invariant 0 <= tries <= n && dayIdx == cursor + n + tries
        invariant forall p :: cursor + n <= p < dayIdx ==> Get(remaining, dayOrder[p % n]) <= 0
      {
        var d := dayOrder[dayIdx % n];
        if Get(remaining, d) > 0 {
          chosen := Some(d);
          break;
        }
        dayIdx := dayIdx + 1;
        tries := tries + 1;
      }
      if chosen.Some? {
        assert dayOrder[dayIdx % n] in dayOrder;
      } else {
        forall d | d in dayOrder ensures Get(remaining, d) <= 0 {
          var q :| 0 <= q < n && dayOrder[q] == d;
          var p := WindowPosition(cursor + n, n, q);
        }
      }
    }
    next := dayIdx;
  }

  /** Remaining capacity summed over the days. */
  function TotalRemaining(days: seq<int>, remaining: map<int, int>): int {
    if days == [] then 0
    else TotalRemaining(days[..|days| - 1], remaining) + Get(remaining, days[|days| - 1])
  }

  /** Every block placed on the days, counted with multiplicity. */
  function Pooled(days: seq<int>, assignments: map<int, seq<int>>): multiset<int> {
    if days == [] then multiset{}
    else
      var last := days[|days| - 1];
      Pooled(days[..|days| - 1], assignments) + (if last in assignments then multiset(assignments[last]) else multiset{})
  }

  lemma {:induction false} TotalRemainingOther(days: seq<int>, remaining: map<int, int>, d: int, v: int)
    requires d !in days
    ensures TotalRemaining(days, remaining[d := v]) == TotalRemaining(days, remaining)
  {
    if days != [] {
      TotalRemainingOther(days[..|days| - 1], remaining, d, v);
    }
  }

  lemma {:induction false} TotalRemainingUpdate(days: seq<int>, remaining: map<int, int>, d: int, v: int)
    requires Distinct(days) && d in days
    ensures TotalRemaining(days, remaining[d := v]) == TotalRemaining(days, remaining) - Get(remaining, d) + v
  {
    var init, last := days[..|days| - 1], days[|days| - 1];
    if last == d {
      assert d !in init;
      TotalRemainingOther(init, remaining, d, v);
    } else {
      assert d in init;
      TotalRemainingUpdate(init, remaining, d, v);
    }
  }

  /** Positive total remaining capacity means some day still has capacity. */
  lemma {:induction false} OpenDay(days: seq<int>, remaining: map<int, int>) returns (d: int)
    requires TotalRemaining(days, remaining) > 0
    ensures d in days && Get(remaining, d) > 0
  {
    var init, last := days[..|days| - 1], days[|days| - 1];
    if Get(remaining, last) > 0 {
      d := last;
    } else {
      d := OpenDay(init, remaining);
    }
  }

  /** No capacity is negative, so a zero total means none is left anywhere. */
  lemma {:induction false} NoneRemaining(days: seq<int>, remaining: map<int, int>)
    requires forall d :: d in days ==> Get(remaining, d) >= 0
    requires TotalRemaining(days, remaining) == 0
    ensures forall d :: d in days ==> Get(remaining, d) == 0
  {
    if days != [] {
      var init := days[..|days| - 1];
      assert forall d :: d in init ==> d in days;
      NonnegTotal(init, remaining);
      NoneRemaining(init, remaining);
    }
  }

  lemma {:induction false} NonnegTotal(days: seq<int>, remaining: map<int, int>)
    requires forall d :: d in days ==> Get(remaining, d) >= 0
    ensures TotalRemaining(days, remaining) >= 0
  {
    if days != [] {
      var init := days[..|days| - 1];
      assert forall d :: d in init ==> d in days;
      NonnegTotal(init, remaining);
    }
  }

  lemma {:induction false} TotalRemainingIsSum(days: seq<int>, remaining: map<int, int>, t: seq<int>)
    requires |t| == |days|
    requires forall i :: 0 <= i < |days| ==> Get(remaining, days[i]) == t[i]
    ensures TotalRemaining(days, remaining) == Sum(t)
  {
    if days != [] {
      TotalRemainingIsSum(days[..|days| - 1], remaining, t[..|t| - 1]);
    }
  }

  lemma {:induction false} PooledOther(days: seq<int>, assignments: map<int, seq<int>>, d: int, v: seq<int>)
    requires d !in days
    ensures Pooled(days, assignments[d := v]) == Pooled(days, assignments)
  {
    if days != [] {
      PooledOther(days[..|days| - 1], assignments, d, v);
    }
  }

  /** Appending a block to one day adds exactly that block to the pool. */
  lemma {:induction false} PooledAppend(days: seq<int>, assignments: map<int, seq<int>>, d: int, b: int)
    requires Distinct(days) && d in days && d in assignments
    ensures Pooled(days, assignments[d := assignments[d] + [b]]) == Pooled(days, assignments) + multiset{b}
  {
    var init, last := days[..|days| - 1], days[|days| - 1];
    var v := assignments[d] + [b];
    if last == d {
      assert d !in init;
      PooledOther(init, assignments, d, v);
      assert multiset(v) == multiset(assignments[d]) + multiset{b};
    } else {
      assert d in init;
      PooledAppend(init, assignments, d, b);
    }
  }

  lemma {:induction false} PooledEmpty(days: seq<int>, assignments: map<int, seq<int>>)
    requires forall d :: d in days ==> d in assignments && assignments[d] == []
    ensures Pooled(days, assignments) == multiset{}
  {
    if days != [] {
      var init := days[..|days| - 1];
      assert forall d :: d in init ==> d in days;
      PooledEmpty(init, assignments);
    }
  }

  /** Blocks offered by `passes` passes over n blocks, counted pass by pass:
      n * passes (OfferedIsProduct), written as a sum so that the loop over
      the passes adds n per pass instead of reasoning about a product. */
  function Offered(n: nat, passes: nat): nat {
    if passes == 0 then 0 else Offered(n, passes - 1) + n
  }

  lemma {:induction false} OfferedIsProduct(n: nat, passes: nat)
    ensures Offered(n, passes) == n * passes
  {
    if passes > 0 {
      OfferedIsProduct(n, passes - 1);
      assert n * passes == n * (passes - 1) + n;
    }
  }

  /** The per-week bookkeeping of the allocator: every eligible day has a list
      and a remaining capacity equal to its target less what it holds, lists hold
      only known blocks, and block_day_used[b] is exactly the set of days whose
      list holds b. */
  ghost predicate Ledger(weekDays: seq<int>, targets: seq<int>, blockIds: seq<int>,
                         assignments: map<int, seq<int>>, remaining: map<int, int>, used: map<int, set<int>>)
  {
    && |targets| == |weekDays|
    && (forall d :: (d in assignments <==> d in weekDays) && (d in remaining <==> d in weekDays))
    && (forall b :: b in used <==> b in blockIds)
    && (forall i :: 0 <= i < |weekDays| ==> 0 <= remaining[weekDays[i]] == targets[i] - |assignments[weekDays[i]]|)
    && (forall d, x :: d in assignments && x in assignments[d] ==> x in blockIds)
    && (forall b, d :: b in used ==> (d in used[b] <==> d in assignments && b in assignments[d]))
  }

  /** Placing block b on day d (which has capacity left) keeps the bookkeeping. */
  lemma PlaceKeepsLedger(weekDays: seq<int>, targets: seq<int>, blockIds: seq<int>,
                         assignments: map<int, seq<int>>, remaining: map<int, int>, used: map<int, set<int>>,
                         b: int, d: int)
    requires Ledger(weekDays, targets, blockIds, assignments, remaining, used)
    requires Distinct(weekDays) && b in blockIds && d in weekDays && Get(remaining, d) > 0
    ensures Ledger(weekDays, targets, blockIds, assignments[d := assignments[d] + [b]],
                   remaining[d := remaining[d] - 1], used[b := used[b] + {d}])
  {
    var assignments', remaining' := assignments[d := assignments[d] + [b]], remaining[d := remaining[d] - 1];
    forall i | 0 <= i < |weekDays|
      ensures 0 <= remaining'[weekDays[i]] == targets[i] - |assignments'[weekDays[i]]|
    {
      if weekDays[i] != d {
        assert weekDays[i] in weekDays;
      }
    }
  }

  /** Extending a prefix by one element; the element is new when the sequence is distinct. */
  lemma PrefixStep(s: seq<int>, j: nat)
    requires Distinct(s) && j < |s|
    ensures s[..j + 1] == s[..j] + [s[j]]
    ensures s[j] !in s[..j]
  {
    assert s[..j + 1] == s[..j] + [s[j]];
  }

  /** The per-block tally of a pass: before block b of the pass is placed, each
      block has been placed k times plus once if it came earlier in the pass. */
  lemma PlaceTally(pool: multiset<int>, blockIds: seq<int>, prefix: seq<int>, b: int, k: nat,
                   offered: nat, assignable: int)
    requires b !in prefix
    requires forall x :: x in blockIds ==>
      pool[x] <= k + (if x in prefix then 1 else 0) &&
      (offered <= assignable ==> pool[x] == k + (if x in prefix then 1 else 0))
    ensures forall x :: x in blockIds ==>
      (pool + multiset{b})[x] <= k + (if x in prefix + [b] then 1 else 0) &&
      (offered + 1 <= assignable ==> (pool + multiset{b})[x] == k + (if x in prefix + [b] then 1 else 0))
  {
  }

  /** The bookkeeping the allocator carries from block to block: the ledger, the
      running count against the blocks offered so far, and the per-block tally
      (k placements per block before this pass, plus one for each block of the
      pass already offered, exactly so while nothing has been cut off). */
  ghost predicate Progress(weekDays: seq<int>, targets: seq<int>, blockIds: seq<int>,
                           assignments: map<int, seq<int>>, remaining: map<int, int>, used: map<int, set<int>>,
                           assignable: int, assignedCount: int, offered: nat, k: nat, prefix: seq<int>)
  {
    && Ledger(weekDays, targets, blockIds, assignments, remaining, used)
    && assignedCount == Min(assignable, offered)
    && TotalRemaining(weekDays, remaining) == assignable - assignedCount
    && |Pooled(weekDays, assignments)| == assignedCount
    && (forall b :: b in blockIds ==>
          Pooled(weekDays, assignments)[b] <= k + (if b in prefix then 1 else 0) &&
          (offered <= assignable ==> Pooled(weekDays, assignments)[b] == k + (if b in prefix then 1 else 0)))
  }

  /** While fewer than `assignable` placements are made, some day has capacity left. */
  lemma HasOpenDay(weekDays: seq<int>, targets: seq<int>, blockIds: seq<int>,
                   assignments: map<int, seq<int>>, remaining: map<int, int>, used: map<int, set<int>>,
                   assignable: int, assignedCount: int, offered: nat, k: nat, prefix: seq<int>)
    returns (d: int)
    requires Progress(weekDays, targets, blockIds, assignments, remaining, used,
                      assignable, assignedCount, offered, k, prefix)
    requires assignedCount < assignable
    ensures d in weekDays && Get(remaining, d) > 0
  {
    d := OpenDay(weekDays, remaining);
  }

  /** Placing the next block b of the pass on a day d with capacity left keeps
      the bookkeeping, with one more block offered and placed. */
  lemma PlaceProgress(weekDays: seq<int>, targets: seq<int>, blockIds: seq<int>,
                      assignments: map<int, seq<int>>, remaining: map<int, int>, used: map<int, set<int>>,
                      assignable: int, assignedCount: int, offered: nat, k: nat, prefix: seq<int>,
                      b: int, d: int)
    requires Progress(weekDays, targets, blockIds, assignments, remaining, used,
                      assignable, assignedCount, offered, k, prefix)
    requires Distinct(weekDays) && assignedCount < assignable
    requires b in blockIds && b !in prefix && d in weekDays && Get(remaining, d) > 0
    ensures Progress(weekDays, targets, blockIds, assignments[d := assignments[d] + [b]],
                     remaining[d := remaining[d] - 1], used[b := used[b] + {d}],
                     assignable, assignedCount + 1, offered + 1, k, prefix + [b])
  {
    PlaceKeepsLedger(weekDays, targets, blockIds, assignments, remaining, used, b, d);
    PooledAppend(weekDays, assignments, d, b);
    TotalRemainingUpdate(weekDays, remaining, d, remaining[d] - 1);
    PlaceTally(Pooled(weekDays, assignments), blockIds, prefix, b, k, offered, assignable);
  }

  /** A pass ends once every block was offered or the week is full; either
      way each block has gained at most one placement, and exactly one if
      nothing was cut off. */
  lemma PassComplete(weekDays: seq<int>, targets: seq<int>, blockIds: seq<int>,
                     assignments: map<int, seq<int>>, remaining: map<int, int>, used: map<int, set<int>>,
                     assignable: int, assignedCount: int, offered: nat, k: nat, order: seq<int>, j: nat)
    requires |order| == |blockIds| && (forall b :: b in blockIds ==> b in order) && j <= |order|
    requires j == |order| || assignedCount >= assignable
    requires Progress(weekDays, targets, blockIds, assignments, remaining, used,
                      assignable, assignedCount, offered + j, k, order[..j])
    ensures Progress(weekDays, targets, blockIds, assignments, remaining, used,
                     assignable, assignedCount, offered + |blockIds|, k + 1, [])
  {
    var pool := Pooled(weekDays, assignments);
    if j == |order| {
      assert order[..j] == order;
    } else {
      assert offered + j >= assignable;
      assert offered + |blockIds| > assignable;
    }
    forall b | b in blockIds ensures pool[b] <= k + 1 {
    }
  }

  /** One block of a pass: probe for a day from the shared cursor, place the
      block there and advance the cursor past it. */
  method OfferBlock(blockIds: seq<int>, weekDays: seq<int>, ghost targets: seq<int>,
                    dayOrder: seq<int>, k: nat, assignable: int, order: seq<int>, j: nat, ghost offered: nat,
                    assignments0: map<int, seq<int>>, remaining0: map<int, int>, used0: map<int, set<int>>,
                    assignedCount0: int, dayIdx0: nat)
    returns (assignments: map<int, seq<int>>, remaining: map<int, int>, used: map<int, set<int>>,
             assignedCount: int, dayIdx: nat, day: int)
    requires Distinct(weekDays) && |dayOrder| > 0
    requires forall d :: d in dayOrder <==> d in weekDays
    requires Distinct(order) && j < |order| && assignedCount0 < assignable
    requires forall b :: b in order <==> b in blockIds
    requires Progress(weekDays, targets, blockIds, assignments0, remaining0, used0,
                      assignable, assignedCount0, offered, k, order[..j])
    ensures Progress(weekDays, targets, blockIds, assignments, remaining, used,
                     assignable, assignedCount, offered + 1, k, order[..j + 1])
    // The block goes to one day of the week with capacity left, and nothing else changes.
    ensures day in weekDays && day in assignments0 && day in remaining0 && order[j] in used0
    ensures Get(remaining0, day) > 0
    ensures assignments == assignments0[day := assignments0[day] + [order[j]]]
    ensures remaining == remaining0[day := remaining0[day] - 1]
    ensures used == used0[order[j] := used0[order[j]] + {day}]
    ensures assignedCount == assignedCount0 + 1
    // A day already holding the block is taken only when every day with
    // capacity left already holds it.
    ensures order[j] in assignments0[day] ==>
      forall e :: e in weekDays && Get(remaining0, e) > 0 ==> order[j] in assignments0[e]
    // The day is the one ChooseDay finds from the cursor dayIdx0, and the cursor
    // moves one past it.
    ensures dayIdx0 < dayIdx <= dayIdx0 + 2 * |dayOrder| && day == dayOrder[(dayIdx - 1) % |dayOrder|]
    ensures day !in used0[order[j]] ==>
      dayIdx - 1 < dayIdx0 + |dayOrder| &&
      forall p :: dayIdx0 <= p < dayIdx - 1 ==> !Fresh(remaining0, used0[order[j]], dayOrder[p % |dayOrder|])
    ensures day in used0[order[j]] ==>
      dayIdx0 + |dayOrder| <= dayIdx - 1 &&
      (forall d :: d in dayOrder ==> !Fresh(remaining0, used0[order[j]], d)) &&
      forall p :: dayIdx0 + |dayOrder| <= p < dayIdx - 1 ==> Get(remaining0, dayOrder[p % |dayOrder|]) <= 0
  {
    var b := order[j];
    assert b in order;
    ghost var prefix := order[..j];
    PrefixStep(order, j);
    ghost var open := HasOpenDay(weekDays, targets, blockIds, assignments0, remaining0, used0,
                                 assignable, assignedCount0, offered, k, prefix);
    assert open in dayOrder;
    var chosen, next := ChooseDay(dayOrder, dayIdx0, remaining0, used0[b]);
    if chosen.None? {
      // Unreachable: the remaining capacity always adds up to what is still assignable.
      assert false;
      return assignments0, remaining0, used0, assignedCount0, next, 0;
    }
    var d := chosen.value;
    assert d in weekDays;
    if b in assignments0[d] {
      assert d in used0[b];
      forall e | e in weekDays && Get(remaining0, e) > 0 ensures b in assignments0[e] {
        assert e in dayOrder && !Fresh(remaining0, used0[b], e);
      }
    }
    day := d;
    PlaceProgress(weekDays, targets, blockIds, assignments0, remaining0, used0,
                  assignable, assignedCount0, offered, k, prefix, b, d);
    assignments := assignments0[d := assignments0[d] + [b]];
    used := used0[b := used0[b] + {d}];
    remaining := remaining0[d := remaining0[d] - 1];
    assignedCount := assignedCount0 + 1;
    dayIdx := next + 1;
  }

  /** The body of pass k: offers every block once, in the given (rotated)
      order, each to the first day of the given day order (continuing from the
      shared cursor) that still has capacity, preferring a day the block has not
      used yet, and stops once `assignable` placements are made. */
  method OfferAll(blockIds: seq<int>, weekDays: seq<int>, ghost targets: seq<int>,
              rotatedBlocks: seq<int>, dayOrder: seq<int>, k: nat, assignable: int,
              assignments0: map<int, seq<int>>, remaining0: map<int, int>, used0: map<int, set<int>>,
              assignedCount0: int, ghost offered0: nat)
    returns (assignments: map<int, seq<int>>, remaining: map<int, int>, used: map<int, set<int>>,
             assignedCount: int)
    requires Distinct(weekDays) && Distinct(rotatedBlocks) && |dayOrder| > 0
    requires |rotatedBlocks| == |blockIds| && forall b :: b in rotatedBlocks <==> b in blockIds
    requires forall d :: d in dayOrder <==> d in weekDays
    requires Progress(weekDays, targets, blockIds, assignments0, remaining0, used0,
                      assignable, assignedCount0, offered0, k, [])
    ensures Progress(weekDays, targets, blockIds, assignments, remaining, used,
                     assignable, assignedCount, offered0 + |blockIds|, k + 1, [])
  {
    assignments, remaining, used, assignedCount := assignments0, remaining0, used0, assignedCount0;
    var n := |rotatedBlocks|;
    var dayIdx := 0;
    var j := 0;
    while j < n
      invariant 0 <= j <= n
      invariant Progress(weekDays, targets, blockIds, assignments, remaining, used,
                         assignable, assignedCount, offered0 + j, k, rotatedBlocks[..j])
    {
      if assignedCount >= assignable {
        break;
      }
      var day;
      assignments, remaining, used, assignedCount, dayIdx, day :=
        OfferBlock(blockIds, weekDays, targets, dayOrder, k, assignable, rotatedBlocks, j, offered0 + j,
                   assignments, remaining, used, assignedCount, dayIdx);
      j := j + 1;
    }
    PassComplete(weekDays, targets, blockIds, assignments, remaining, used,
                 assignable, assignedCount, offered0, k, rotatedBlocks, j);
  }

  /** The state the allocator starts a week in satisfies the bookkeeping. */
  lemma StartProgress(weekDays: seq<int>, blockIds: seq<int>, maxPerDay: nat, assignable: int,
                      remaining: map<int, int>, assignments: map<int, seq<int>>, used: map<int, set<int>>)
    requires Distinct(weekDays) && |weekDays| > 0
    requires 0 <= assignable <= |weekDays| * maxPerDay
    requires remaining.Keys == (set d | d in weekDays)
    requires forall i :: 0 <= i < |weekDays| ==>
      remaining[weekDays[i]] == Targets(|weekDays|, assignable, maxPerDay)[i]
    requires assignments == map d | d in weekDays :: []
    requires used == map b | b in blockIds :: {}
    ensures Progress(weekDays, Targets(|weekDays|, assignable, maxPerDay), blockIds, assignments, remaining, used,
                     assignable, 0, 0, 0, [])
  {
    var targets := Targets(|weekDays|, assignable, maxPerDay);
    TargetsSum(|weekDays|, assignable, maxPerDay);
    forall i | 0 <= i < |weekDays| ensures Get(remaining, weekDays[i]) == targets[i] {
      assert weekDays[i] in weekDays;
    }
    TotalRemainingIsSum(weekDays, remaining, targets);
    PooledEmpty(weekDays, assignments);
  }

  /** After the last pass the bookkeeping yields everything the week promises:
      each day holds exactly its target, the week holds `assignable` blocks,
      and each block at most once per pass (exactly once when nothing was cut). */
  lemma FinishProgress(weekDays: seq<int>, targets: seq<int>, blockIds: seq<int>,
                       assignments: map<int, seq<int>>, remaining: map<int, int>, used: map<int, set<int>>,
                       assignable: int, assignedCount: int, offered: nat, k: nat)
    requires Progress(weekDays, targets, blockIds, assignments, remaining, used,
                      assignable, assignedCount, offered, k, [])
    requires 0 <= assignable <= offered && offered == |blockIds| * k
    ensures assignments.Keys == set d | d in weekDays
    ensures forall i :: 0 <= i < |weekDays| ==> |assignments[weekDays[i]]| == targets[i]
    ensures |Pooled(weekDays, assignments)| == assignable
    ensures forall d, b :: d in assignments && b in assignments[d] ==> b in blockIds
    ensures forall b :: b in blockIds ==> Pooled(weekDays, assignments)[b] <= k
    ensures assignable == |blockIds| * k ==> forall b :: b in blockIds ==> Pooled(weekDays, assignments)[b] == k
  {
    forall d | d in weekDays ensures Get(remaining, d) >= 0 {
      var i :| 0 <= i < |weekDays| && weekDays[i] == d;
    }
    NoneRemaining(weekDays, remaining);
    assert forall d :: d in assignments.Keys <==> d in (set d | d in weekDays);
    forall i | 0 <= i < |weekDays| ensures |assignments[weekDays[i]]| == targets[i] {
      assert weekDays[i] in weekDays;
      assert Get(remaining, weekDays[i]) == remaining[weekDays[i]] == 0;
    }
  }

  /** The block order and day order of pass k: the block ids rotated by k and
      the week's days rotated by k mod D, each a rearrangement of what it
      rotates. */
  method PassOrder(blockIds: seq<int>, weekDays: seq<int>, k: nat) returns (rotatedBlocks: seq<int>, dayOrder: seq<int>)
    requires Distinct(blockIds) && |weekDays| > 0
    ensures rotatedBlocks == RotateLeft(blockIds, k) && dayOrder == RotateLeft(weekDays, k % |weekDays|)
    ensures Distinct(rotatedBlocks) && |rotatedBlocks| == |blockIds|
    ensures forall b :: b in rotatedBlocks <==> b in blockIds
    ensures |dayOrder| == |weekDays| && forall d :: d in dayOrder <==> d in weekDays
  {
    rotatedBlocks := RotateLeft(blockIds, k);
    dayOrder := RotateLeft(weekDays, k % |weekDays|);
    RotateLeftDistinct(blockIds, k);
    RotateLeftPermutes(blockIds, k);
    RotateLeftPermutes(weekDays, k % |weekDays|);
  }

  /** Pass k of the allocation loop: the blocks rotated by k are offered in
      turn to the days rotated by k mod D. */
  method Pass(blockIds: seq<int>, weekDays: seq<int>, ghost targets: seq<int>,
              k: nat, assignable: int,
              assignments0: map<int, seq<int>>, remaining0: map<int, int>, used0: map<int, set<int>>,
              assignedCount0: int, ghost offered0: nat)
    returns (assignments: map<int, seq<int>>, remaining: map<int, int>, used: map<int, set<int>>,
             assignedCount: int)
    requires Distinct(blockIds) && Distinct(weekDays) && |weekDays| > 0
    requires Progress(weekDays, targets, blockIds, assignments0, remaining0, used0,
                      assignable, assignedCount0, offered0, k, [])
    ensures Progress(weekDays, targets, blockIds, assignments, remaining, used,
                     assignable, assignedCount, offered0 + |blockIds|, k + 1, [])
  {
    var rotatedBlocks, dayOrder := PassOrder(blockIds, weekDays, k);
    assignments, remaining, used, assignedCount :=
      OfferAll(blockIds, weekDays, targets, rotatedBlocks, dayOrder, k, assignable,
               assignments0, remaining0, used0, assignedCount0, offered0);
  }

  /** The passes k = 0 .. eventsPerWeek - 1 of a week, each with the block
      order rotated by k and the day order rotated by k mod D. */
  method RunPasses(blockIds: seq<int>, weekDays: seq<int>, ghost targets: seq<int>,
                   eventsPerWeek: nat, assignable: int,
                   assignments0: map<int, seq<int>>, remaining0: map<int, int>, used0: map<int, set<int>>,
                   assignedCount0: int)
    returns (assignments: map<int, seq<int>>, remaining: map<int, int>, used: map<int, set<int>>,
             assignedCount: int)
    requires Distinct(blockIds) && Distinct(weekDays) && |weekDays| > 0
    requires Progress(weekDays, targets, blockIds, assignments0, remaining0, used0,
                      assignable, assignedCount0, 0, 0, [])
    ensures Progress(weekDays, targets, blockIds, assignments, remaining, used,
                     assignable, assignedCount, Offered(|blockIds|, eventsPerWeek), eventsPerWeek, [])
  {
    assignments, remaining, used, assignedCount := assignments0, remaining0, used0, assignedCount0;
    var k := 0;
    while k < eventsPerWeek
      invariant 0 <= k <= eventsPerWeek
      invariant Progress(weekDays, targets, blockIds, assignments, remaining, used,
                         assignable, assignedCount, Offered(|blockIds|, k), k, [])
    {
      assignments, remaining, used, assignedCount :=
        Pass(blockIds, weekDays, targets, k, assignable,
             assignments, remaining, used, assignedCount, Offered(|blockIds|, k));
      k := k + 1;
    }
  }

  /** The state a week starts from: the targets as remaining capacity, an
      empty list per day and no day used by any block. */
  method StartWeek(blockIds: seq<int>, weekDays: seq<int>, maxPerDay: nat, assignable: int)
    returns (assignments: map<int, seq<int>>, remaining: map<int, int>, used: map<int, set<int>>)
    requires Distinct(weekDays) && |weekDays| > 0
    requires 0 <= assignable <= |weekDays| * maxPerDay
    ensures Progress(weekDays, Targets(|weekDays|, assignable, maxPerDay), blockIds, assignments, remaining, used,
                     assignable, 0, 0, 0, [])
  {
    var dayTargets := EvenTargets(weekDays, assignable, maxPerDay);
    remaining := dayTargets;
    assignments := map d | d in weekDays :: [];
    used := map b | b in blockIds :: {};
    StartProgress(weekDays, blockIds, maxPerDay, assignable, remaining, assignments, used);
  }

  /** One week of the allocation loop. The targets come from _even_targets;
      each of eventsPerWeek passes offers every block once, in the order rotated
      by the pass number, to days in the order rotated by the pass number mod D,
      until `assignable` placements are made. Every day ends with exactly its
      leveled target, no block is placed more than once per pass, and when the
      demand is fully assignable every block is placed once in every pass. */
  method AllocateWeek(blockIds: seq<int>, weekDays: seq<int>, eventsPerWeek: nat, maxPerDay: nat, assignable: int)
    returns (assignments: map<int, seq<int>>)
    requires Distinct(blockIds) && Distinct(weekDays) && |weekDays| > 0
    requires 0 <= assignable <= |blockIds| * eventsPerWeek
    requires assignable <= |weekDays| * maxPerDay
    ensures assignments.Keys == set d | d in weekDays
    ensures forall i :: 0 <= i < |weekDays| ==>
      |assignments[weekDays[i]]| == Targets(|weekDays|, assignable, maxPerDay)[i]
    ensures |Pooled(weekDays, assignments)| == assignable
    ensures forall d, b :: d in assignments && b in assignments[d] ==> b in blockIds
    ensures forall b :: b in blockIds ==> Pooled(weekDays, assignments)[b] <= eventsPerWeek
    ensures assignable == |blockIds| * eventsPerWeek ==>
      forall b :: b in blockIds ==> Pooled(weekDays, assignments)[b] == eventsPerWeek
  {
    var n := |blockIds|;
    var days := |weekDays|;
    ghost var targets := Targets(days, assignable, maxPerDay);
    var remaining, used;
    assignments, remaining, used := StartWeek(blockIds, weekDays, maxPerDay, assignable);
    var assignedCount := 0;

    assignments, remaining, used, assignedCount :=
      RunPasses(blockIds, weekDays, targets, eventsPerWeek, assignable, assignments, remaining, used, assignedCount);
    OfferedIsProduct(n, eventsPerWeek);
    FinishProgress(weekDays, targets, blockIds, assignments, remaining, used, assignable, assignedCount,
                   Offered(n, eventsPerWeek), eventsPerWeek);
  }
}
