/**
  The sliding one-minute window over keystroke and word timestamps.
  Times are whole milliseconds; the window is 60 seconds.
 */
module TimeWindow {
  import opened Seqs

  /** A point in time, in milliseconds. */
  type Time = int

  /** The rate window (`wpmWindow`, and the literal 60 of the rate computation). */
  const WINDOW_MS: int := 60000

  /** Keeps a timestamp that is not older than `cutoff`. */
  function Since(cutoff: Time): Time -> bool
  {
    t => t >= cutoff
  }

  /** Counts a timestamp strictly later than `start`. */
  function After(start: Time): Time -> bool
  {
    t => t > start
  }

  /** The buffer after `removeAll { $0 < cutoff }`. */
  function Pruned(s: seq<Time>, cutoff: Time): (r: seq<Time>)
    ensures forall i :: 0 <= i < |r| ==> r[i] >= cutoff
  {
    Filter(Since(cutoff), s)
  }

  /** `filter { $0 > start }.count`: the timestamps strictly later than `start`. */
  function CountAfter(s: seq<Time>, start: Time): (n: nat)
    ensures n <= |s|
  {
    |Filter(After(start), s)|
  }

  /** Inserting `now` and pruning to the window leaves `now` as the newest entry, and no entry older than the window. */
  lemma {:induction false} InsertThenPrune(s: seq<Time>, now: Time)
    ensures var r := Pruned(s + [now], now - WINDOW_MS);
      |r| > 0 && r[|r| - 1] == now && forall i :: 0 <= i < |r| ==> now - WINDOW_MS <= r[i]
  {
    FilterAppend(Since(now - WINDOW_MS), s, [now]);
  }

  /** Pruning keeps exactly the occurrences of timestamps inside the window, and drops the others. */
  lemma {:induction false} PrunedOccurrences(s: seq<Time>, cutoff: Time, t: Time)
    ensures multiset(Pruned(s, cutoff))[t] == if t >= cutoff then multiset(s)[t] else 0
  {
    FilterOccurrences(Since(cutoff), s, t);
  }

  /** Pruning keeps the surviving entries in their original order. */
  lemma {:induction false} PrunedKeepsOrder(s: seq<Time>, cutoff: Time)
    ensures IsSubsequence(Pruned(s, cutoff), s)
  {
    FilterIsSubsequence(Since(cutoff), s);
  }

  /** Timestamps in arrival order: never decreasing. */
  predicate Sorted(s: seq<Time>)
  {
    forall i, j :: 0 <= i < j < |s| ==> s[i] <= s[j]
  }

  /** Pruning a non-decreasing buffer leaves it non-decreasing. */
  lemma {:induction false} PrunedKeepsSorted(s: seq<Time>, cutoff: Time)
    requires Sorted(s)
    ensures Sorted(Pruned(s, cutoff))
  {
    if s != [] {
      PrunedKeepsSorted(s[1..], cutoff);
      var rest := Pruned(s[1..], cutoff);
      if s[0] >= cutoff {
        assert forall k :: 0 <= k < |rest| ==> s[0] <= rest[k] by {
          forall k | 0 <= k < |rest| ensures s[0] <= rest[k] {
            PrunedOccurrences(s[1..], cutoff, rest[k]);
            assert rest[k] in multiset(rest);
            assert rest[k] in multiset(s[1..]);
          }
        }
      }
    }
  }

  /**
    Pruning at `cutoff` never removes a timestamp that a later count from
    `start >= cutoff - 1` would see: the window prune on insert is invisible to
    the rate computation of any tick at or after the insert.
   */
  lemma {:induction false} PruneInvisibleToCount(s: seq<Time>, cutoff: Time, start: Time)
    requires cutoff - 1 <= start
    ensures CountAfter(Pruned(s, cutoff), start) == CountAfter(s, start)
  {
    FilterOfFilter(After(start), Since(cutoff), s);
  }

  /** A timestamp appended to the buffer adds one to the count exactly when it is inside the window. */
  lemma {:induction false} CountAfterAppend(s: seq<Time>, t: Time, start: Time)
    ensures CountAfter(s + [t], start) == CountAfter(s, start) + (if t > start then 1 else 0)
  {
    FilterAppend(After(start), s, [t]);
  }

  /** A later window start never counts more timestamps. */
  lemma {:induction false} CountAfterAntitone(s: seq<Time>, early: Time, late: Time)
    requires early <= late
    ensures CountAfter(s, late) <= CountAfter(s, early)
  {
    if s != [] {
      CountAfterAntitone(s[1..], early, late);
    }
  }

  /** A buffer whose every entry is at or before `start` counts zero; one whose every entry is after it counts in full. */
  lemma CountAfterExtremes(s: seq<Time>, start: Time)
    ensures (forall i :: 0 <= i < |s| ==> s[i] <= start) ==> CountAfter(s, start) == 0
    ensures (forall i :: 0 <= i < |s| ==> s[i] > start) ==> CountAfter(s, start) == |s|
  {
    if forall i :: 0 <= i < |s| ==> s[i] <= start {
      FilterDropsAll(After(start), s);
    }
    if forall i :: 0 <= i < |s| ==> s[i] > start {
      FilterKeepsAll(After(start), s);
    }
  }

}
