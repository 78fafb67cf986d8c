/** What completing a repetition leads to, and the preview of dates to come. */
module RepeatPlans {
  import opened Calendar
  import opened RepeatRules
  import opened RepeatSearch
  import opened Wrappers
  import GoInt

  const MAX_PLAN_STEPS := 100_000
  const MAX_SKIPPED_DATES := 10

  /** Every date of the schedule in lo..hi, earliest first, by looking at each day. */
  ghost function Occurrences(s: RepeatSchedule, lo: Date, hi: Date): seq<Date>
    decreases hi - lo
  {
    if hi <= lo then [] else Occurrences(s, lo, hi - 1) + if Occurs(s, hi - 1) then [hi - 1] else []
  }

  /** The list holds exactly the schedule's dates in its range, in strictly increasing order. */
  lemma {:induction false} OccurrencesExact(s: RepeatSchedule, lo: Date, hi: Date)
    ensures var all := Occurrences(s, lo, hi);
            && (forall d :: d in all <==> lo <= d < hi && Occurs(s, d))
            && (forall i, j | 0 <= i < j < |all| :: all[i] < all[j])
    decreases hi - lo
  {
    hide Occurs;
    if lo < hi {
      OccurrencesExact(s, lo, hi - 1);
      var before := Occurrences(s, lo, hi - 1);
      assert forall i | 0 <= i < |before| :: before[i] in before;
    }
  }

  lemma {:induction false} Gap(s: RepeatSchedule, lo: Date, a: Date, b: Date)
    requires a <= b && forall e | a <= e < b :: !Occurs(s, e)
    requires lo <= a
    ensures Occurrences(s, lo, b) == Occurrences(s, lo, a)
    decreases b - a
  {
    hide Occurs;
    if a < b {
      Gap(s, lo, a, b - 1);
    }
  }

  lemma FirstExtends(s: RepeatSchedule, lo: Date, from: Date, d: Date)
    requires lo <= from && IsFirst(s, from, d)
    ensures Occurrences(s, lo, d) == Occurrences(s, lo, from)
    ensures Occurrences(s, lo, d + 1) == Occurrences(s, lo, from) + [d]
  {
    hide Occurs;
    Gap(s, lo, from, d);
  }

  lemma {:induction false} OccurrencesPrefix(s: RepeatSchedule, lo: Date, a: Date, b: Date)
    requires a <= b
    ensures Occurrences(s, lo, a) <= Occurrences(s, lo, b)
    decreases b - a
  {
    hide Occurs;
    if a < b {
      OccurrencesPrefix(s, lo, a, b - 1);
    }
  }

  function Head<T>(all: seq<T>, n: nat): seq<T> {
    if |all| <= n then all else all[..n]
  }

  datatype RepeatPlan = RepeatPlan(next: Option<Date>, skipped: seq<Date>, skippedCount: int)

  /** The plan read off the dates themselves: a direct jump, with everything passed over counted up to a cap. */
  ghost predicate IsPlan(s: RepeatSchedule, current: Date, completedOn: Date, plan: RepeatPlan) {
    var passed := Occurrences(s, current + 1, completedOn);
    && plan.next.Some?
    && IsFirst(s, GoInt.Max(current + 1, completedOn), plan.next.value)
    && plan.skippedCount == GoInt.Min(|passed|, 100_000)
    && plan.skipped == Head(passed, 10)
  }

  /** A schedule and two dates leave one possible plan. */
  lemma PlanIsUnique(s: RepeatSchedule, current: Date, completedOn: Date, a: RepeatPlan, b: RepeatPlan)
    requires IsPlan(s, current, completedOn, a) && IsPlan(s, current, completedOn, b)
    ensures a == b
  {
    hide IsFirst;
    FirstIsUnique(s, GoInt.Max(current + 1, completedOn), a.next.value, b.next.value);
  }

  /** The walk's state before a step: next follows from, and all of passed lies behind it. */
  ghost predicate Walking(s: RepeatSchedule, current: Date, completedOn: Date, from: Date, next: Date,
                          skipped: seq<Date>, steps: nat) {
    && current + 1 <= from
    && (from == current + 1 || from <= completedOn)
    && IsFirst(s, from, next)
    && |Occurrences(s, current + 1, from)| == steps
    && skipped == Head(Occurrences(s, current + 1, from), MAX_SKIPPED_DATES)
  }

  lemma WalkEnds(s: RepeatSchedule, current: Date, completedOn: Date, from: Date, next: Date,
                 skipped: seq<Date>, steps: nat)
    requires Walking(s, current, completedOn, from, next, skipped, steps)
    requires completedOn <= next && steps <= MAX_PLAN_STEPS
    ensures IsPlan(s, current, completedOn, RepeatPlan(Some(next), skipped, steps))
  {
    hide Occurs;
    if from <= completedOn {
      Gap(s, current + 1, from, completedOn);
    }
  }

  lemma WalkSteps(s: RepeatSchedule, current: Date, completedOn: Date, from: Date, next: Date,
                  skipped: seq<Date>, steps: nat, after: Date)
    requires Walking(s, current, completedOn, from, next, skipped, steps)
    requires next < completedOn && IsFirst(s, next + 1, after)
    ensures Walking(s, current, completedOn, next + 1, after,
                    if |skipped| < MAX_SKIPPED_DATES then skipped + [next] else skipped, steps + 1)
  {
    hide Occurs;
    FirstExtends(s, current + 1, from, next);
  }

  lemma WalkCapped(s: RepeatSchedule, current: Date, completedOn: Date, from: Date, next: Date,
                   skipped: seq<Date>, jump: Date)
    requires Walking(s, current, completedOn, from, next, skipped, MAX_PLAN_STEPS)
    requires next < completedOn && IsFirst(s, completedOn, jump)
    ensures IsPlan(s, current, completedOn, RepeatPlan(Some(jump), skipped, MAX_PLAN_STEPS))
  {
    hide Occurs;
    OccurrencesPrefix(s, current + 1, from, completedOn);
    var behind, passed := Occurrences(s, current + 1, from), Occurrences(s, current + 1, completedOn);
    assert behind == passed[..|behind|];
    assert Head(behind, MAX_SKIPPED_DATES) == Head(passed, MAX_SKIPPED_DATES);
  }

  /** The capped walk over passed dates lands where the direct jump does, whether or not the cap cuts it short. */
  method PlanAfterCompletion(s: RepeatSchedule, current: Date, completedOn: Date) returns (plan: RepeatPlan)
    ensures Placed(s.rule) ==> IsPlan(s, current, completedOn, plan)
    ensures Dateless(s.rule) ==> plan == RepeatPlan(None, [], 0)
  {
    hide Occurs, Occurrences, Placed, Dateless, IsFirst, IsPlan;
    var skipped, skippedCount := [], 0;
    var next := NextAfter(s, current);
    ghost var from := current + 1;
    NothingPassed(s, from);
    var steps := 0;
    while next.Some? && next.value < completedOn
      invariant 0 <= steps <= MAX_PLAN_STEPS && skippedCount == steps
      invariant Placed(s.rule) ==> next.Some? && Walking(s, current, completedOn, from, next.value, skipped, steps)
      invariant Dateless(s.rule) ==> next == None && skipped == [] && steps == 0
      decreases MAX_PLAN_STEPS - steps
    {
      if steps == MAX_PLAN_STEPS {
        ghost var walked := next.value;
        next := FirstOnOrAfter(s, completedOn);
        if Placed(s.rule) {
          WalkCapped(s, current, completedOn, from, walked, skipped, next.value);
        }
        return RepeatPlan(next, skipped, skippedCount);
      }
      skippedCount := skippedCount + 1;
      ghost var before := skipped;
      if |skipped| < MAX_SKIPPED_DATES {
        skipped := skipped + [next.value];
      }
      var after := NextAfter(s, next.value);
      if Placed(s.rule) {
        WalkSteps(s, current, completedOn, from, next.value, before, steps, after.value);
      }
      from := next.value + 1;
      next := after;
      steps := steps + 1;
    }
    if Placed(s.rule) {
      WalkEnds(s, current, completedOn, from, next.value, skipped, steps);
    }
    return RepeatPlan(next, skipped, skippedCount);
  }

  lemma NothingPassed(s: RepeatSchedule, from: Date)
    ensures Occurrences(s, from, from) == []
  {
  }

  /** A start and a length leave one possible preview. */
  lemma PreviewIsUnique(s: RepeatSchedule, from: Date, a: Date, b: Date)
    requires |Occurrences(s, from, a)| == |Occurrences(s, from, b)|
    ensures Occurrences(s, from, a) == Occurrences(s, from, b)
  {
    hide Occurrences;
    if a <= b {
      OccurrencesPrefix(s, from, a, b);
    } else {
      OccurrencesPrefix(s, from, b, a);
    }
  }

  /** Exactly the first n dates on or after from: the preview stops right after its last date and skips none. */
  method Upcoming(s: RepeatSchedule, from: Date, n: nat) returns (out: seq<Date>)
    ensures Placed(s.rule) ==> |out| == n && exists end :: out == Occurrences(s, from, end)
    ensures Dateless(s.rule) ==> out == []
  {
    hide Occurs, Occurrences, Placed, Dateless;
    out := [];
    var d := FirstOnOrAfter(s, from);
    ghost var end := from;
    NothingPassed(s, from);
    while d.Some? && |out| < n
      invariant |out| <= n && from <= end
      invariant Placed(s.rule) ==> d.Some? && IsFirst(s, end, d.value) && out == Occurrences(s, from, end)
      invariant Dateless(s.rule) ==> d == None && out == []
      decreases n - |out|
    {
      if Placed(s.rule) {
        FirstExtends(s, from, end, d.value);
      }
      out := out + [d.value];
      end := GoInt.Max(d.value + 1, from);
      d := NextAfter(s, d.value);
    }
  }
}
