/**
  The typing-statistics engine: one `StatsManager` object holding the live
  rates, the day's aggregates, the lifetime counters, the two one-minute
  timestamp buffers and the session state, persisted to a string-keyed
  store with a lazy new-day reset.

  Every `Date()` read inside one operation is the `now` parameter of that
  operation; each block the Swift code dispatches to the main queue is one
  call here. The calendar ("is this date today?") and the square root are
  constants of the object, fixed when it is created.
 */
module Stats {
  import opened Options
  import opened TimeWindow
  import opened Statistics
  import opened ActiveTime
  import opened DailyStats

  /** Store keys. */
  const KEY_TOTAL_KEYSTROKES: string := "totalKeystrokes"
  const KEY_TOTAL_WORDS: string := "totalWords"
  const KEY_HIGHEST_WPM_TODAY: string := "highestWPMToday"

  /** A session ends after more than five seconds without a keystroke. */
  const INACTIVITY_THRESHOLD_MS: int := 5000

  /** Every instant lies on the same calendar day as itself. */
  ghost predicate SameDayReflexive(sameDay: (Time, Time) -> bool)
  {
    forall t :: sameDay(t, t)
  }

  /**
    `!Calendar.current.isDateInToday(lastSaveDate ?? now)`: the stored save
    date, or `now` when there is none, is not on the day of `now`. With a
    calendar on which every instant shares its own day, a new day is detected
    exactly when a save date is stored and lies on another day; a missing
    date never resets.
   */
  predicate IsNewDay(stored: Option<Time>, now: Time, sameDay: (Time, Time) -> bool)
    ensures SameDayReflexive(sameDay) ==>
      (IsNewDay(stored, now, sameDay) <==> stored.Some? && !sameDay(stored.value, now))
  {
    var lastSave := if stored.Some? then stored.value else now;
    !sameDay(lastSave, now)
  }

  /**
    The durable key-value store. Integers are kept by key; the date of the
    last save is kept apart, as the one date-valued key.
   */
  class Defaults {
    var integers: map<string, int>
    var lastSaveDate: Option<Time>

    constructor ()
      ensures integers == map[] && lastSaveDate == None
    {
      integers := map[];
      lastSaveDate := None;
    }

    /** `integer(forKey:)`: a stored key reads as its value, a missing key as 0. */
    function Integer(key: string): (v: int)
      reads this
      ensures key in integers ==> v == integers[key]
      ensures key !in integers ==> v == 0
    {
      if key in integers then integers[key] else 0
    }

    method SetInteger(key: string, value: int)
      modifies this
      ensures integers == old(integers)[key := value]
      ensures lastSaveDate == old(lastSaveDate)
      ensures Integer(key) == value
      ensures forall k :: k != key ==> Integer(k) == old(Integer(k))
    {
      integers := integers[key := value];
    }

    method SetLastSaveDate(date: Time)
      modifies this
      ensures lastSaveDate == Some(date)
      ensures integers == old(integers)
    {
      lastSaveDate := Some(date);
    }
  }

  class StatsManager {
    var currentWPM: int
    var currentCPM: int
    var totalKeystrokes: int
    var totalWords: int
    var highestWPMToday: int
    var averageWPMToday: real
    var consistency: real
    /** Milliseconds since the session started, frozen when the session ends. */
    var activeTime: Time

    var wordTimestamps: seq<Time>
    var keystrokeTimestamps: seq<Time>
    var wpmHistory: seq<int>
    var sessionStartTime: Option<Time>
    var lastActivityTime: Option<Time>

    const userDefaults: Defaults
    /** `sameDay(d, now)` stands for `Calendar.current.isDateInToday(d)` evaluated at `now`. */
    const sameDay: (Time, Time) -> bool
    const sqrt: real -> real

    /** The calendar and the square root behave as such, and the day's aggregates keep their invariant. */
    ghost predicate Valid()
      reads this
    {
      && SameDayReflexive(sameDay)
      && SqrtNonNegative(sqrt)
      && DailyInvariant(DailyStats(), sqrt)
    }

    ghost function DailyStats(): Daily
      reads this
    {
      Daily(highestWPMToday, averageWPMToday, consistency, wpmHistory, activeTime)
    }

    /** `init`: zeroed fields, then `loadStats`. */
    constructor (defaults: Defaults, sameDay: (Time, Time) -> bool, sqrt: real -> real, now: Time)
      requires SameDayReflexive(sameDay) && SqrtNonNegative(sqrt)
      ensures Valid()
      ensures userDefaults == defaults && this.sameDay == sameDay && this.sqrt == sqrt
      ensures totalKeystrokes == defaults.Integer(KEY_TOTAL_KEYSTROKES)
      ensures totalWords == defaults.Integer(KEY_TOTAL_WORDS)
      ensures highestWPMToday == if IsNewDay(defaults.lastSaveDate, now, sameDay) then 0 else defaults.Integer(KEY_HIGHEST_WPM_TODAY)
      ensures currentWPM == 0 && currentCPM == 0
      ensures averageWPMToday == 0.0 && consistency == 0.0 && activeTime == 0
      ensures wordTimestamps == [] && keystrokeTimestamps == [] && wpmHistory == []
      ensures sessionStartTime == None && lastActivityTime == None
    {
      currentWPM, currentCPM := 0, 0;
      totalKeystrokes, totalWords, highestWPMToday := 0, 0, 0;
      averageWPMToday, consistency, activeTime := 0.0, 0.0, 0;
      wordTimestamps, keystrokeTimestamps, wpmHistory := [], [], [];
      sessionStartTime, lastActivityTime := None, None;
      userDefaults := defaults;
      this.sameDay := sameDay;
      this.sqrt := sqrt;
      new;
      LoadStats(now);
    }

    /**
      One keystroke at `now`: count it, stamp it, mark activity, open a session
      if none is open, prune the keystroke window, then save (which may reset
      the day, closing the session it just opened).
     */
    method IncrementKeystroke(now: Time)
      requires Valid()
      modifies this, userDefaults
      ensures Valid()
      ensures totalKeystrokes == old(totalKeystrokes) + 1
      ensures keystrokeTimestamps == Pruned(old(keystrokeTimestamps) + [now], now - WINDOW_MS)
      ensures lastActivityTime == Some(now)
      ensures var newDay := IsNewDay(old(userDefaults.lastSaveDate), now, sameDay);
        && sessionStartTime == (if newDay then None else if old(sessionStartTime).None? then Some(now) else old(sessionStartTime))
        && DailyStats() == (if newDay then CLEARED_DAILY else old(DailyStats()))
      ensures userDefaults.integers == old(userDefaults.integers)
        [KEY_TOTAL_KEYSTROKES := old(totalKeystrokes) + 1]
        [KEY_TOTAL_WORDS := old(totalWords)]
        [KEY_HIGHEST_WPM_TODAY := old(highestWPMToday)]
      ensures userDefaults.lastSaveDate == Some(now)
      ensures totalWords == old(totalWords) && wordTimestamps == old(wordTimestamps)
      ensures currentWPM == old(currentWPM) && currentCPM == old(currentCPM)
    {
      totalKeystrokes := totalKeystrokes + 1;
      keystrokeTimestamps := keystrokeTimestamps + [now];
      lastActivityTime := Some(now);

      if sessionStartTime == None {
        sessionStartTime := Some(now);
      }

      var cutoff := now - WINDOW_MS;
      keystrokeTimestamps := Pruned(keystrokeTimestamps, cutoff);

      SaveStats(now);
    }

    /** One completed word at `time`: count it, stamp it, prune the word window. Nothing is saved. */
    method AddWord(time: Time)
      requires Valid()
      modifies this
      ensures Valid()
      ensures totalWords == old(totalWords) + 1
      ensures wordTimestamps == Pruned(old(wordTimestamps) + [time], time - WINDOW_MS)
      ensures totalKeystrokes == old(totalKeystrokes) && keystrokeTimestamps == old(keystrokeTimestamps)
      ensures lastActivityTime == old(lastActivityTime) && sessionStartTime == old(sessionStartTime)
      ensures DailyStats() == old(DailyStats())
      ensures currentWPM == old(currentWPM) && currentCPM == old(currentCPM)
    {
      totalWords := totalWords + 1;
      wordTimestamps := wordTimestamps + [time];

      var cutoff := time - WINDOW_MS;
      wordTimestamps := Pruned(wordTimestamps, cutoff);
    }

    /**
      The once-a-second tick at `now`: idle detection, active time, the two
      one-minute rates, the WPM history and highest value, the average and
      the consistency score.
     */
    method UpdateStats(now: Time)
      requires Valid()
      modifies this`sessionStartTime, this`activeTime, this`currentWPM, this`currentCPM
      modifies this`wpmHistory, this`highestWPMToday, this`averageWPMToday, this`consistency
      ensures Valid()
      ensures sessionStartTime ==
        if old(lastActivityTime).Some? && now - old(lastActivityTime).value > INACTIVITY_THRESHOLD_MS
        then None else old(sessionStartTime)
      ensures activeTime == if sessionStartTime.Some? then now - sessionStartTime.value else old(activeTime)
      ensures currentWPM == CountAfter(wordTimestamps, now - WINDOW_MS)
      ensures currentCPM == CountAfter(keystrokeTimestamps, now - WINDOW_MS)
      ensures DailyStats() == RecordSample(old(DailyStats()).(activeTime := activeTime), currentWPM, sqrt)
    {
      if lastActivityTime.Some? && now - lastActivityTime.value > INACTIVITY_THRESHOLD_MS {
        sessionStartTime := None;
      }

      if sessionStartTime.Some? {
        activeTime := now - sessionStartTime.value;
      }
      assert DailyStats() == old(DailyStats()).(activeTime := activeTime);

      var oneMinuteAgo := now - WINDOW_MS;
      currentWPM := CountAfter(wordTimestamps, oneMinuteAgo);
      currentCPM := CountAfter(keystrokeTimestamps, oneMinuteAgo);

      UpdateDailyStats();
    }

    /** The history, highest, average and consistency steps of the tick, for the WPM just computed. */
    method UpdateDailyStats()
      requires Valid()
      modifies this`wpmHistory, this`highestWPMToday, this`averageWPMToday, this`consistency
      ensures Valid()
      ensures DailyStats() == RecordSample(old(DailyStats()), currentWPM, sqrt)
    {
      ghost var target := RecordSample(DailyStats(), currentWPM, sqrt);
      if currentWPM > 0 {
        wpmHistory := wpmHistory + [currentWPM];
        if currentWPM > highestWPMToday {
          highestWPMToday := currentWPM;
        }
      }
      assert wpmHistory == target.wpmHistory && highestWPMToday == target.highestWPM;

      if wpmHistory != [] {
        averageWPMToday := Average(wpmHistory);
      }
      assert averageWPMToday == target.averageWPM;

      if |wpmHistory| > 1 {
        var mean := averageWPMToday;
        consistency := Consistency(wpmHistory, mean, sqrt);
      }
      assert consistency == target.consistency;
    }

    /** Clears the day's aggregates and ends the session; lifetime counters, activity time and buffers stay. */
    method ResetDailyStats()
      requires Valid()
      modifies this
      ensures Valid()
      ensures DailyStats() == CLEARED_DAILY && sessionStartTime == None
      ensures totalKeystrokes == old(totalKeystrokes) && totalWords == old(totalWords)
      ensures lastActivityTime == old(lastActivityTime)
      ensures wordTimestamps == old(wordTimestamps) && keystrokeTimestamps == old(keystrokeTimestamps)
      ensures currentWPM == old(currentWPM) && currentCPM == old(currentCPM)
    {
      highestWPMToday := 0;
      averageWPMToday := 0.0;
      consistency := 0.0;
      wpmHistory := [];
      activeTime := 0;
      sessionStartTime := None;
    }

    /**
      Writes the three counters (before the day check, so on a new day the
      stored highest WPM is the value from before the reset), resets the day
      when the stored save date is on another day, and stamps the save date.
     */
    method SaveStats(now: Time)
      requires Valid()
      modifies this, userDefaults
      ensures Valid()
      ensures userDefaults.integers == old(userDefaults.integers)
        [KEY_TOTAL_KEYSTROKES := old(totalKeystrokes)]
        [KEY_TOTAL_WORDS := old(totalWords)]
        [KEY_HIGHEST_WPM_TODAY := old(highestWPMToday)]
      ensures userDefaults.lastSaveDate == Some(now)
      ensures var newDay := IsNewDay(old(userDefaults.lastSaveDate), now, sameDay);
        && DailyStats() == (if newDay then CLEARED_DAILY else old(DailyStats()))
        && sessionStartTime == (if newDay then None else old(sessionStartTime))
      ensures totalKeystrokes == old(totalKeystrokes) && totalWords == old(totalWords)
      ensures lastActivityTime == old(lastActivityTime)
      ensures wordTimestamps == old(wordTimestamps) && keystrokeTimestamps == old(keystrokeTimestamps)
      ensures currentWPM == old(currentWPM) && currentCPM == old(currentCPM)
    {
      userDefaults.SetInteger(KEY_TOTAL_KEYSTROKES, totalKeystrokes);
      userDefaults.SetInteger(KEY_TOTAL_WORDS, totalWords);
      userDefaults.SetInteger(KEY_HIGHEST_WPM_TODAY, highestWPMToday);

      var lastSaveDate := if userDefaults.lastSaveDate.Some? then userDefaults.lastSaveDate.value else now;
      if !sameDay(lastSaveDate, now) {
        ResetDailyStats();
      }
      userDefaults.SetLastSaveDate(now);
    }

    /**
      Reads the three counters back (missing keys read as 0) and resets the day
      when the stored save date is on another day. Runs only from `init`, before
      any WPM sample exists.
     */
    method LoadStats(now: Time)
      requires Valid() && wpmHistory == []
      modifies this
      ensures Valid()
      ensures totalKeystrokes == userDefaults.Integer(KEY_TOTAL_KEYSTROKES)
      ensures totalWords == userDefaults.Integer(KEY_TOTAL_WORDS)
      ensures var newDay := IsNewDay(userDefaults.lastSaveDate, now, sameDay);
        && DailyStats() == (if newDay then CLEARED_DAILY else old(DailyStats()).(highestWPM := userDefaults.Integer(KEY_HIGHEST_WPM_TODAY)))
        && sessionStartTime == (if newDay then None else old(sessionStartTime))
      ensures lastActivityTime == old(lastActivityTime)
      ensures wordTimestamps == old(wordTimestamps) && keystrokeTimestamps == old(keystrokeTimestamps)
      ensures currentWPM == old(currentWPM) && currentCPM == old(currentCPM)
    {
      totalKeystrokes := userDefaults.Integer(KEY_TOTAL_KEYSTROKES);
      totalWords := userDefaults.Integer(KEY_TOTAL_WORDS);
      highestWPMToday := userDefaults.Integer(KEY_HIGHEST_WPM_TODAY);

      var lastSaveDate := if userDefaults.lastSaveDate.Some? then userDefaults.lastSaveDate.value else now;
      if !sameDay(lastSaveDate, now) {
        ResetDailyStats();
      }
    }

    /**
      `formattedActiveTime`: "HH:MM:SS" of the whole seconds of the active
      time. For a non-negative active time it ends in ":MM:SS", and its
      three fields read back as the whole seconds.
     */
    function FormattedActiveTime(): (r: string)
      reads this
      ensures 0 <= activeTime ==> ShowsClock(r, WholeSeconds(activeTime))
    {
      FormatClock(WholeSeconds(activeTime))
    }
  }

}
