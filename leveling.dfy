/** _even_targets: how a week's assignable count is spread over its days. */
module Leveling {
  import opened Seqs

  /** The target of the day at position i of D days: total // D, plus one for
      the first total % D days, capped at maxPerDay. */
  function TargetAt(i: nat, days: nat, total: int, maxPerDay: int): int
    requires days > 0
  {
    Min(total / days + (if i < total % days then 1 else 0), maxPerDay)
  }

  /** The per-day targets, by position in the day list. They never exceed the
      cap, never increase along the list, and differ by at most one. */
  function Targets(days: nat, total: int, maxPerDay: int): (t: seq<int>)
    ensures |t| == days
    ensures forall i :: 0 <= i < days ==> t[i] <= maxPerDay
    ensures forall i, j :: 0 <= i < j < days ==> t[j] <= t[i] <= t[j] + 1
    ensures total >= 0 && maxPerDay >= 0 ==> forall i :: 0 <= i < days ==> t[i] >= 0
  {
    if days == 0 then []
    else
      var t := seq(days, i requires 0 <= i < days => TargetAt(i, days, total, maxPerDay));
      TargetAtShape(days, total, maxPerDay);
      t
  }

  lemma TargetAtShape(days: nat, total: int, maxPerDay: int)
    requires days > 0
    ensures forall i: nat, j: nat :: i < j ==> TargetAt(j, days, total, maxPerDay) <= TargetAt(i, days, total, maxPerDay) <= TargetAt(j, days, total, maxPerDay) + 1
    ensures total >= 0 && maxPerDay >= 0 ==> forall i: nat :: TargetAt(i, days, total, maxPerDay) >= 0
  {
    var base, rem := total / days, total % days;
    assert 0 <= rem < days;
    if total >= 0 {
      assert total == days * base + rem;
      if base < 0 {
        MulMonotone(days, base, -1);
      }
    }
  }

  /** The targets add up to the total when the days can hold it, and to the
      full capacity of the days otherwise. */
  lemma TargetsSum(days: nat, total: int, maxPerDay: int)
    requires days > 0
    ensures Sum(Targets(days, total, maxPerDay)) == Min(total, days * maxPerDay)
  {
    var base, rem := total / days, total % days;
    if total <= days * maxPerDay {
      SumUnderCap(days, total, maxPerDay, base, rem);
    } else {
      SumOverCap(days, total, maxPerDay, base, rem);
    }
  }

  /** When the days can hold the total, no target is cut by the cap. The
      quotient and remainder of total by days are passed in as base and rem
      so that the proof names them once. */
  lemma SumUnderCap(days: nat, total: int, maxPerDay: int, base: int, rem: int)
    requires days > 0 && base == total / days && rem == total % days
    requires total <= days * maxPerDay
    ensures forall i :: 0 <= i < days ==> Targets(days, total, maxPerDay)[i] == base + (if i < rem then 1 else 0)
    ensures Sum(Targets(days, total, maxPerDay)) == total
  {
    var t := Targets(days, total, maxPerDay);
    assert total == days * base + rem && 0 <= rem < days;
    if base > maxPerDay {
      MulMonotone(days, maxPerDay + 1, base);
    }
    if base == maxPerDay {
      assert days * base == days * maxPerDay;
    }
    forall i | 0 <= i < days ensures t[i] == base + (if i < rem then 1 else 0) {
      assert t[i] == TargetAt(i, days, total, maxPerDay);
    }
    SumLevel(t, base, rem);
  }

  /** When the total exceeds what the days can hold, every target is the cap.
      base and rem are the quotient and remainder, as in SumUnderCap. */
  lemma SumOverCap(days: nat, total: int, maxPerDay: int, base: int, rem: int)
    requires days > 0 && base == total / days && rem == total % days
    requires total > days * maxPerDay
    ensures forall i :: 0 <= i < days ==> Targets(days, total, maxPerDay)[i] == maxPerDay
    ensures Sum(Targets(days, total, maxPerDay)) == days * maxPerDay
  {
    var t := Targets(days, total, maxPerDay);
    assert total == days * base + rem && 0 <= rem < days;
    if base < maxPerDay {
      MulMonotone(days, base + 1, maxPerDay);
    }
    assert base >= maxPerDay;
    forall i | 0 <= i < days ensures t[i] == maxPerDay {
      assert t[i] == TargetAt(i, days, total, maxPerDay);
    }
    assert forall i :: 0 <= i < |t| ==> t[i] == maxPerDay + (if i < 0 then 1 else 0);
    SumLevel(t, maxPerDay, 0);
  }

  lemma MulMonotone(n: nat, a: int, b: int)
    requires a <= b
    ensures n * a <= n * b
  {
  }

  /** A list whose first `rem` entries are base + 1 and the rest base sums to
      |t| * base + min(|t|, rem). */
  lemma {:induction false} SumLevel(t: seq<int>, base: int, rem: nat)
    requires forall i :: 0 <= i < |t| ==> t[i] == base + (if i < rem then 1 else 0)
    ensures Sum(t) == |t| * base + Min(|t|, rem)
  {
    if t != [] {
      var n := |t|;
      SumLevel(t[..n - 1], base, rem);
      assert n * base == (n - 1) * base + base;
    }
  }

  /** _even_targets: a map from each day to its target; empty for no days. */
  method EvenTargets(days: seq<int>, total: int, maxPerDay: int) returns (targets: map<int, int>)
    requires Distinct(days)
    ensures days == [] ==> targets == map[]
    ensures targets.Keys == set d | d in days
    ensures forall i :: 0 <= i < |days| ==> targets[days[i]] == Targets(|days|, total, maxPerDay)[i]
  {
    var n := |days|;
    if n <= 0 {
      return map[];
    }
    var base := total / n;
    var rem := total % n;
    targets := map[];
    for i := 0 to n
      invariant targets.Keys == set d | d in days[..i]
      invariant forall j :: 0 <= j < i ==> targets[days[j]] == Targets(n, total, maxPerDay)[j]
    {
      var t := base + (if i < rem then 1 else 0);
      targets := targets[days[i] := Min(t, maxPerDay)];
      assert days[..i + 1] == days[..i] + [days[i]];
    }
    assert days[..n] == days;
  }
}
