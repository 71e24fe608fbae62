/** Runs of satisfied periods. The streak loops of habit.py visit periods from
    the current one backwards; with `true` for a satisfied period, the current
    streak is the run at the front (skipping an unsatisfied current period) and
    the longest streak is the longest run anywhere. */
module Runs {

  /** `s` holds `n` trues from index `i` on. */
  predicate RunAt(s: seq<bool>, i: nat, n: nat) {
    i + n <= |s| && forall j :: i <= j < i + n ==> s[j]
  }

  /** Some element among `s[i..i + n]` (both ends included) is false. */
  predicate FalseWithin(s: seq<bool>, i: nat, n: nat) {
    exists j :: i <= j <= i + n && j < |s| && !s[j]
  }

  function Max(a: int, b: int): int {
    if a < b then b else a
  }

  /** Length of the run of trues that starts at index `i`: the distance to the
      first false from there, or to the end. */
  function LeadingRun(s: seq<bool>, i: nat): (n: nat)
    requires i <= |s|
    ensures i + n <= |s|
    decreases |s| - i
  {
    if i == |s| || !s[i] then 0 else 1 + LeadingRun(s, i + 1)
  }

  /** `LeadingRun` is a run, and ends at a false or at the end. */
  lemma {:induction false} LeadingRunIsRun(s: seq<bool>, i: nat)
    requires i <= |s|
    ensures RunAt(s, i, LeadingRun(s, i))
    ensures i + LeadingRun(s, i) < |s| ==> !s[i + LeadingRun(s, i)]
    decreases |s| - i
  {
    if i < |s| && s[i] {
      LeadingRunIsRun(s, i + 1);
    }
  }

  /** Length of the run of trues that ends at index `i` (exclusive). */
  function TrailingRun(s: seq<bool>, i: nat): (n: nat)
    requires i <= |s|
    ensures n <= i
  {
    if i == 0 || !s[i - 1] then 0 else 1 + TrailingRun(s, i - 1)
  }

  /** `TrailingRun` is a run, and starts after a false or at the front. */
  lemma {:induction false} TrailingRunIsRun(s: seq<bool>, i: nat)
    requires i <= |s|
    ensures RunAt(s, i - TrailingRun(s, i), TrailingRun(s, i))
    ensures TrailingRun(s, i) < i ==> !s[i - TrailingRun(s, i) - 1]
  {
    if i > 0 && s[i - 1] {
      TrailingRunIsRun(s, i - 1);
    }
  }

  /** The streak `calculate_streak` reports for the visited marks `s`: the run
      at the front, where an unsatisfied first (current) period is skipped
      instead of ending the run. */
  function CurrentRun(s: seq<bool>): nat {
    if |s| == 0 then 0
    else if s[0] then LeadingRun(s, 0)
    else LeadingRun(s, 1)
  }

  /** The longest run of trues among the first `i` elements, scanning from the
      front as `calculate_longest_streak` does: the best run seen before the
      last element against the run still open at it. */
  function LongestUpTo(s: seq<bool>, i: nat): (n: nat)
    requires i <= |s|
    ensures n <= i
  {
    if i == 0 then 0 else Max(LongestUpTo(s, i - 1), TrailingRun(s, i))
  }

  function LongestRun(s: seq<bool>): (n: nat)
    ensures n <= |s|
  {
    LongestUpTo(s, |s|)
  }

  /** No all-true segment ending at `i` is longer than `TrailingRun`. */
  lemma TrailingRunIsLongest(s: seq<bool>, a: nat, i: nat)
    requires a <= i <= |s| && RunAt(s, a, i - a)
    ensures i - a <= TrailingRun(s, i)
  {
    TrailingRunIsRun(s, i);
  }

  /** `LongestUpTo` is the length of the longest all-true segment within the
      first `i` elements: none is longer and one has that length. */
  lemma {:induction false} LongestUpToIsLongest(s: seq<bool>, i: nat)
    requires i <= |s|
    ensures forall a: nat, n: nat :: a + n <= i && RunAt(s, a, n) ==> n <= LongestUpTo(s, i)
    ensures exists a: nat :: a + LongestUpTo(s, i) <= i && RunAt(s, a, LongestUpTo(s, i))
  {
    if i == 0 {
      assert RunAt(s, 0, 0);
    } else {
      LongestUpToIsLongest(s, i - 1);
      forall a: nat, n: nat | a + n <= i && RunAt(s, a, n)
        ensures n <= LongestUpTo(s, i)
      {
        if a + n == i {
          TrailingRunIsLongest(s, a, i);
        }
      }
      var t := TrailingRun(s, i);
      TrailingRunIsRun(s, i);
      if LongestUpTo(s, i - 1) < t {
        assert RunAt(s, i - t, t);
      } else {
        var a: nat :| a + LongestUpTo(s, i - 1) <= i - 1 && RunAt(s, a, LongestUpTo(s, i - 1));
      }
    }
  }

  /** `LongestRun` is the length of the longest all-true segment. */
  lemma LongestRunIsLongest(s: seq<bool>)
    ensures forall a: nat, n: nat :: RunAt(s, a, n) ==> n <= LongestRun(s)
    ensures exists a: nat :: RunAt(s, a, LongestRun(s))
  {
    LongestUpToIsLongest(s, |s|);
  }

  /** The current streak never exceeds the longest one, which never exceeds the
      number of visited periods. */
  lemma CurrentAtMostLongest(s: seq<bool>)
    ensures CurrentRun(s) <= LongestRun(s) <= |s|
  {
    LongestRunIsLongest(s);
    if |s| > 0 {
      LeadingRunIsRun(s, if s[0] then 0 else 1);
    }
  }

  /** A non-empty run starts with a true. */
  lemma RunStartsTrue(s: seq<bool>, i: nat, n: nat)
    requires RunAt(s, i, n)
    ensures n > 0 ==> i < |s| && s[i]
  {
  }

  /** With no satisfied period both streaks are 0. */
  lemma NoTrueNoRun(s: seq<bool>)
    requires forall i :: 0 <= i < |s| ==> !s[i]
    ensures CurrentRun(s) == 0 && LongestRun(s) == 0
  {
    LongestRunIsLongest(s);
    var i: nat :| RunAt(s, i, LongestRun(s));
    RunStartsTrue(s, i, LongestRun(s));
    CurrentAtMostLongest(s);
  }

  /** The front run when the periods after the first are satisfied up to index
      `g`, where an unsatisfied one (or the end) stops it. */
  lemma CurrentRunStops(s: seq<bool>, g: nat)
    requires 1 <= g <= |s|
    requires g < |s| ==> !s[g]
    requires forall j :: 1 <= j < g ==> s[j]
    ensures CurrentRun(s) == (if s[0] then 1 else 0) + g - 1
  {
    LeadingRunIsRun(s, if s[0] then 0 else 1);
  }

  /** A false within the first `n + 1` places from `i` bounds a run from `i` by `n`. */
  lemma RunBlocked(s: seq<bool>, i: nat, len: nat, n: nat)
    requires RunAt(s, i, len) && FalseWithin(s, i, n)
    ensures len <= n
  {
    var j :| i <= j <= i + n && j < |s| && !s[j];
  }

  /** A run of length `n` exists and every segment of length `n + 1` holds a
      false: then `n` is the longest run. */
  lemma LongestRunExact(s: seq<bool>, a: nat, n: nat)
    requires RunAt(s, a, n)
    requires forall i: nat :: i + n + 1 <= |s| ==> FalseWithin(s, i, n)
    ensures LongestRun(s) == n
  {
    LongestRunIsLongest(s);
    var i: nat :| RunAt(s, i, LongestRun(s));
    if i + n + 1 <= |s| {
      RunBlocked(s, i, LongestRun(s), n);
    }
  }

  /** What the `calculate_streak` loop returns when it resumes at period `i`
      having counted `streak`: a satisfied period is counted, an unsatisfied
      one ends the walk unless it is the first. */
  function StreakFrom(s: seq<bool>, i: nat, streak: nat): nat
    requires i <= |s|
    decreases |s| - i
  {
    if i == |s| then streak
    else if s[i] then StreakFrom(s, i + 1, streak + 1)
    else if i > 0 then streak
    else StreakFrom(s, i + 1, streak)
  }

  /** One iteration of the `calculate_streak` loop that does not stop it. */
  lemma StreakFromStep(s: seq<bool>, i: nat, streak: nat, streak': nat)
    requires i < |s| && (s[i] || i == 0)
    requires streak' == if s[i] then streak + 1 else streak
    ensures StreakFrom(s, i, streak) == StreakFrom(s, i + 1, streak')
  {
  }

  /** Resumed past the first period, the loop adds the run of trues ahead. */
  lemma {:induction false} StreakFromAhead(s: seq<bool>, i: nat, streak: nat)
    requires 1 <= i <= |s|
    ensures StreakFrom(s, i, streak) == streak + LeadingRun(s, i)
    decreases |s| - i
  {
    if i < |s| && s[i] {
      StreakFromAhead(s, i + 1, streak + 1);
    }
  }

  /** The `calculate_streak` loop computes `CurrentRun`. */
  lemma StreakFromIsCurrentRun(s: seq<bool>)
    ensures StreakFrom(s, 0, 0) == CurrentRun(s)
  {
    if |s| > 0 {
      StreakFromAhead(s, 1, if s[0] then 1 else 0);
    }
  }

  /** What the `calculate_longest_streak` loop returns when it resumes at period
      `i` with open run `streak` and best closed run `best`. */
  function LongestFrom(s: seq<bool>, i: nat, streak: nat, best: nat): nat
    requires i <= |s|
    decreases |s| - i
  {
    if i == |s| then (if streak > best then streak else best)
    else if s[i] then LongestFrom(s, i + 1, streak + 1, best)
    else LongestFrom(s, i + 1, 0, if streak > best then streak else best)
  }

  /** One iteration of the `calculate_longest_streak` loop. */
  lemma LongestFromStep(s: seq<bool>, i: nat, streak: nat, best: nat, streak': nat, best': nat)
    requires i < |s|
    requires streak' == (if s[i] then streak + 1 else 0)
    requires best' == (if s[i] || streak <= best then best else streak)
    ensures LongestFrom(s, i, streak, best) == LongestFrom(s, i + 1, streak', best')
  {
  }

  /** Resumed at `i` with the open run the trailing run there and the better of
      the two runs the longest so far, the loop ends with the longest run. */
  lemma {:induction false} LongestFromAhead(s: seq<bool>, i: nat, best: nat)
    requires i <= |s|
    requires Max(best, TrailingRun(s, i)) == LongestUpTo(s, i)
    ensures LongestFrom(s, i, TrailingRun(s, i), best) == LongestRun(s)
    decreases |s| - i
  {
    if i < |s| {
      var t := TrailingRun(s, i);
      if s[i] {
        assert TrailingRun(s, i + 1) == t + 1;
        LongestFromAhead(s, i + 1, best);
      } else {
        assert TrailingRun(s, i + 1) == 0;
        LongestFromAhead(s, i + 1, Max(best, t));
      }
    }
  }

  /** The `calculate_longest_streak` loop computes `LongestRun`. */
  lemma LongestFromIsLongestRun(s: seq<bool>)
    ensures LongestFrom(s, 0, 0, 0) == LongestRun(s)
  {
    LongestFromAhead(s, 0, 0);
  }
}
