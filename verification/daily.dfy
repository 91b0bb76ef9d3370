/**
  The per-day aggregates of the statistics engine and how one tick's WPM
  reading updates them: the history of positive readings, the day's highest
  reading, the running average and the consistency score.
 */
module DailyStats {
  import opened TimeWindow
  import opened Statistics

  /** The per-day aggregates, all of which a new day clears. */
  datatype Daily = Daily(highestWPM: int, averageWPM: real, consistency: real, wpmHistory: seq<int>, activeTime: Time)

  /** The per-day aggregates right after a reset. */
  const CLEARED_DAILY: Daily := Daily(0, 0.0, 0.0, [], 0)

  /**
    Every WPM sample is positive and at most the day's highest; the average
    and the consistency are those of the history (0 before there is one), and
    the average of a non-empty history is at least 1, so the consistency
    formula never divides by a zero mean.
   */
  predicate DailyInvariant(d: Daily, sqrt: real -> real)
  {
    && (forall i :: 0 <= i < |d.wpmHistory| ==> 0 < d.wpmHistory[i] <= d.highestWPM)
    && d.averageWPM == (if d.wpmHistory == [] then 0.0 else Average(d.wpmHistory))
    && (d.wpmHistory != [] ==> 1.0 <= d.averageWPM)
    && d.consistency == (if |d.wpmHistory| > 1 then Consistency(d.wpmHistory, d.averageWPM, sqrt) else 0.0)
  }

  /**
    Steps 4 to 6 of a tick that measured `wpm`: a positive reading joins the
    history and may raise the highest; the average is recomputed over a
    non-empty history; the consistency is recomputed once there are two
    readings. The invariant holds afterwards, and the highest becomes the
    larger of the old highest and a positive reading.
   */
  function RecordSample(d: Daily, wpm: int, sqrt: real -> real): (r: Daily)
    requires DailyInvariant(d, sqrt)
    ensures DailyInvariant(r, sqrt)
    ensures |r.wpmHistory| == if wpm > 0 then |d.wpmHistory| + 1 else |d.wpmHistory|
    ensures r.wpmHistory[..|d.wpmHistory|] == d.wpmHistory
    ensures wpm > 0 ==> r.wpmHistory[|d.wpmHistory|] == wpm
    ensures d.highestWPM <= r.highestWPM
    ensures 0 < wpm ==> wpm <= r.highestWPM
    ensures r.highestWPM == d.highestWPM || r.highestWPM == wpm
    ensures wpm <= 0 ==> r == d
    ensures r.activeTime == d.activeTime
  {
    var history := if wpm > 0 then d.wpmHistory + [wpm] else d.wpmHistory;
    var highest := if wpm > 0 && wpm > d.highestWPM then wpm else d.highestWPM;
    var average :=
      if history != [] then
        AverageBounds(history, highest);
        Average(history)
      else d.averageWPM;
    var consistency := if |history| > 1 then Consistency(history, average, sqrt) else d.consistency;
    Daily(highest, average, consistency, history, d.activeTime)
  }

  /** Whatever the day so far, the average of a non-empty history is positive and at most the highest, and the consistency is a score in 0..100. */
  lemma DailyBounds(d: Daily, sqrt: real -> real)
    requires DailyInvariant(d, sqrt) && SqrtNonNegative(sqrt)
    ensures d.wpmHistory != [] ==> 0.0 < d.averageWPM <= d.highestWPM as real
    ensures 0.0 <= d.consistency <= 100.0
  {
    if d.wpmHistory != [] {
      AverageBounds(d.wpmHistory, d.highestWPM);
    }
  }

  /**
    A tick is not idempotent: two ticks that measure the same positive WPM
    append it twice.
   */
  lemma RepeatedTickGrowsHistory(d: Daily, wpm: int, sqrt: real -> real)
    requires DailyInvariant(d, sqrt) && wpm > 0
    ensures |RecordSample(RecordSample(d, wpm, sqrt), wpm, sqrt).wpmHistory| == |d.wpmHistory| + 2
  {
  }

}
