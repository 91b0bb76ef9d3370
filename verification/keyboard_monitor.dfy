/**
  Word-boundary detection on the key-down stream. Every key-down is one
  keystroke for the statistics engine; its letter and digit characters
  accumulate in a word buffer; a space, return or tab key closes the word in
  the buffer, if there is one, as one word at the time of the key.

  Whether a character is a letter or a number (Unicode `isLetter` /
  `isNumber`) is the predicate `isWordChar`, fixed when the monitor is made.
 */
module Keyboard {
  import opened Options
  import opened Seqs
  import opened TimeWindow
  import opened Stats

  /** Virtual key codes that end a word. */
  const KEY_CODE_SPACE: int := 49
  const KEY_CODE_RETURN: int := 36
  const KEY_CODE_TAB: int := 48

  predicate IsBoundaryKey(keyCode: int)
  {
    keyCode == KEY_CODE_SPACE || keyCode == KEY_CODE_RETURN || keyCode == KEY_CODE_TAB
  }

  /** The characters of `chars` that belong to a word, in their order. */
  function WordChars(isWordChar: char -> bool, chars: string): (r: string)
    ensures forall i :: 0 <= i < |r| ==> isWordChar(r[i])
  {
    Filter(isWordChar, chars)
  }

  /** A buffer holding nothing but word characters. */
  predicate OnlyWordChars(isWordChar: char -> bool, buffer: string)
  {
    forall i :: 0 <= i < |buffer| ==> isWordChar(buffer[i])
  }

  /** The part of a key-down the word detection sees: its key code and the characters it produced. */
  datatype KeyEvent = KeyEvent(keyCode: int, chars: string)

  /**
    The word buffer after one key-down, and whether the key-down completed a
    word: the event's word characters are appended first, then a boundary
    key with a non-empty buffer closes the word and empties the buffer. So a
    boundary key always leaves the buffer empty, and completes a word exactly
    when the buffer or the key's own characters hold a word character; any
    other key never completes a word and only appends.
   */
  function Step(isWordChar: char -> bool, buffer: string, e: KeyEvent): (r: (string, bool))
    ensures IsBoundaryKey(e.keyCode) ==>
      r.0 == [] && (r.1 <==> buffer != [] || WordChars(isWordChar, e.chars) != [])
    ensures !IsBoundaryKey(e.keyCode) ==> r == (buffer + WordChars(isWordChar, e.chars), false)
  {
    var filled := buffer + WordChars(isWordChar, e.chars);
    if IsBoundaryKey(e.keyCode) && filled != [] then ("", true) else (filled, false)
  }

  /** A buffer of word characters stays one after any key-down. */
  lemma StepKeepsWordChars(isWordChar: char -> bool, buffer: string, e: KeyEvent)
    requires OnlyWordChars(isWordChar, buffer)
    ensures OnlyWordChars(isWordChar, Step(isWordChar, buffer, e).0)
  {
  }

  /** The buffer after a run of key-downs, and the number of words they completed. */
  function Run(isWordChar: char -> bool, buffer: string, events: seq<KeyEvent>): (string, nat)
    decreases |events|
  {
    if events == [] then (buffer, 0)
    else
      var (next, word) := Step(isWordChar, buffer, events[0]);
      var (last, words) := Run(isWordChar, next, events[1..]);
      (last, words + (if word then 1 else 0))
  }

  /** How many of the events are boundary keys. */
  function BoundaryCount(events: seq<KeyEvent>): nat
  {
    if events == [] then 0
    else (if IsBoundaryKey(events[0].keyCode) then 1 else 0) + BoundaryCount(events[1..])
  }

  /** All characters the events produced, in order. */
  function AllChars(events: seq<KeyEvent>): string
  {
    if events == [] then "" else events[0].chars + AllChars(events[1..])
  }

  predicate NoBoundary(events: seq<KeyEvent>)
  {
    forall i :: 0 <= i < |events| ==> !IsBoundaryKey(events[i].keyCode)
  }

  /** The index of the first boundary key. */
  function FirstBoundary(events: seq<KeyEvent>): (i: nat)
    requires !NoBoundary(events)
    ensures i < |events| && IsBoundaryKey(events[i].keyCode) && NoBoundary(events[..i])
  {
    if IsBoundaryKey(events[0].keyCode) then 0
    else
      assert !NoBoundary(events[1..]) by {
        var k :| 0 <= k < |events| && IsBoundaryKey(events[k].keyCode);
        assert events[1..][k - 1] == events[k];
      }
      1 + FirstBoundary(events[1..])
  }

  /**
    The words of a run counted another way: cut the events after each
    boundary key; a piece that ends in a boundary key is one word when the
    buffer it starts from, or the characters of its events, hold a word
    character.
   */
  function ClosedWords(isWordChar: char -> bool, buffer: string, events: seq<KeyEvent>): nat
    decreases |events|
  {
    if NoBoundary(events) then 0
    else
      var i := FirstBoundary(events);
      var word := buffer + WordChars(isWordChar, AllChars(events[..i + 1]));
      (if word != [] then 1 else 0) + ClosedWords(isWordChar, "", events[i + 1..])
  }

  lemma {:induction false} AllCharsAppend(a: seq<KeyEvent>, b: seq<KeyEvent>)
    ensures AllChars(a + b) == AllChars(a) + AllChars(b)
  {
    if a == [] {
      assert a + b == b;
    } else {
      assert (a + b)[1..] == a[1..] + b;
      AllCharsAppend(a[1..], b);
    }
  }

  /** Running two stretches of events one after the other is running them together. */
  lemma {:induction false} RunAppend(isWordChar: char -> bool, buffer: string, a: seq<KeyEvent>, b: seq<KeyEvent>)
    ensures var (mid, n1) := Run(isWordChar, buffer, a);
      var (last, n2) := Run(isWordChar, mid, b);
      Run(isWordChar, buffer, a + b) == (last, n1 + n2)
    decreases |a|
  {
    if a == [] {
      assert a + b == b;
    } else {
      assert (a + b)[1..] == a[1..] + b;
      var (next, _) := Step(isWordChar, buffer, a[0]);
      RunAppend(isWordChar, next, a[1..], b);
    }
  }

  /**
    Without a boundary key no word is completed and the buffer only grows, by
    the word characters of all the events, in order.
   */
  lemma {:induction false} RunWithoutBoundary(isWordChar: char -> bool, buffer: string, events: seq<KeyEvent>)
    requires NoBoundary(events)
    ensures Run(isWordChar, buffer, events) == (buffer + WordChars(isWordChar, AllChars(events)), 0)
    decreases |events|
  {
    if events != [] {
      var filled := buffer + WordChars(isWordChar, events[0].chars);
      assert NoBoundary(events[1..]) by {
        forall k | 0 <= k < |events[1..]| ensures !IsBoundaryKey(events[1..][k].keyCode) {
          assert events[1..][k] == events[k + 1];
        }
      }
      assert Step(isWordChar, buffer, events[0]) == (filled, false);
      RunWithoutBoundary(isWordChar, filled, events[1..]);
      FilterAppend(isWordChar, events[0].chars, AllChars(events[1..]));
      assert AllChars(events) == events[0].chars + AllChars(events[1..]);
      assert buffer + WordChars(isWordChar, AllChars(events))
        == filled + WordChars(isWordChar, AllChars(events[1..]));
    } else {
      assert WordChars(isWordChar, AllChars(events)) == [];
      assert buffer + [] == buffer;
    }
  }

  /** The words a run completes are exactly the closed pieces that hold a word character. */
  lemma {:induction false} RunCountsClosedWords(isWordChar: char -> bool, buffer: string, events: seq<KeyEvent>)
    ensures Run(isWordChar, buffer, events).1 == ClosedWords(isWordChar, buffer, events)
    decreases |events|
  {
    if NoBoundary(events) {
      RunWithoutBoundary(isWordChar, buffer, events);
    } else {
      var i := FirstBoundary(events);
      var before, key, after := events[..i], events[i], events[i + 1..];
      assert events == before + [key] + after;
      assert events[..i + 1] == before + [key];
      RunAppend(isWordChar, buffer, before + [key], after);
      RunAppend(isWordChar, buffer, before, [key]);
      RunWithoutBoundary(isWordChar, buffer, before);
      AllCharsAppend(before, [key]);
      assert AllChars([key]) == key.chars;
      FilterAppend(isWordChar, AllChars(before), key.chars);
      RunCountsClosedWords(isWordChar, "", after);
    }
  }

  /** A run completes at most one word per boundary key. */
  lemma {:induction false} RunWordsAtMostBoundaries(isWordChar: char -> bool, buffer: string, events: seq<KeyEvent>)
    ensures Run(isWordChar, buffer, events).1 <= BoundaryCount(events)
    decreases |events|
  {
    if events != [] {
      var (next, _) := Step(isWordChar, buffer, events[0]);
      RunWordsAtMostBoundaries(isWordChar, next, events[1..]);
    }
  }

  /** Over any run the buffer holds only word characters. */
  lemma {:induction false} RunKeepsWordChars(isWordChar: char -> bool, buffer: string, events: seq<KeyEvent>)
    requires OnlyWordChars(isWordChar, buffer)
    ensures OnlyWordChars(isWordChar, Run(isWordChar, buffer, events).0)
    decreases |events|
  {
    if events != [] {
      var (next, _) := Step(isWordChar, buffer, events[0]);
      StepKeepsWordChars(isWordChar, buffer, events[0]);
      RunKeepsWordChars(isWordChar, next, events[1..]);
    }
  }

  class KeyboardMonitor {
    const statsManager: StatsManager
    /** `char.isLetter || char.isNumber`. */
    const isWordChar: char -> bool
    var lastKeyTime: Time
    var wordBuffer: string

    /** The engine keeps its invariant, and the buffer holds nothing but word characters. */
    ghost predicate Valid()
      reads this, statsManager
    {
      statsManager.Valid() && OnlyWordChars(isWordChar, wordBuffer)
    }

    constructor (statsManager: StatsManager, isWordChar: char -> bool, now: Time)
      requires statsManager.Valid()
      ensures Valid()
      ensures this.statsManager == statsManager && this.isWordChar == isWordChar
      ensures lastKeyTime == now && wordBuffer == ""
    {
      this.statsManager := statsManager;
      this.isWordChar := isWordChar;
      lastKeyTime := now;
      wordBuffer := "";
    }

    /**
      One key-down at `now` with key code `keyCode` that produced `chars`:
      one keystroke for the engine, the characters into the buffer, and a word
      for the engine when a boundary key finds the buffer non-empty.
     */
    method HandleKeyEvent(keyCode: int, chars: string, now: Time)
      requires Valid()
      modifies this, statsManager, statsManager.userDefaults
      ensures Valid()
      ensures var (buffer, word) := Step(isWordChar, old(wordBuffer), KeyEvent(keyCode, chars));
        && wordBuffer == buffer
        && statsManager.totalWords == old(statsManager.totalWords) + (if word then 1 else 0)
        && statsManager.wordTimestamps ==
             if word then Pruned(old(statsManager.wordTimestamps) + [now], now - WINDOW_MS)
             else old(statsManager.wordTimestamps)
      ensures statsManager.totalKeystrokes == old(statsManager.totalKeystrokes) + 1
      ensures statsManager.keystrokeTimestamps == Pruned(old(statsManager.keystrokeTimestamps) + [now], now - WINDOW_MS)
      ensures statsManager.lastActivityTime == Some(now)
      ensures lastKeyTime == now
    {
      var currentTime := now;

      statsManager.IncrementKeystroke(currentTime);

      ProcessCharacters(chars, currentTime);

      if keyCode == KEY_CODE_SPACE || keyCode == KEY_CODE_RETURN || keyCode == KEY_CODE_TAB {
        if wordBuffer != "" {
          statsManager.AddWord(currentTime);
          wordBuffer := "";
        }
      }

      lastKeyTime := currentTime;
    }

    /** Appends the word characters of `chars` to the buffer, in order. */
    method ProcessCharacters(chars: string, time: Time)
      modifies this`wordBuffer
      ensures wordBuffer == old(wordBuffer) + WordChars(isWordChar, chars)
    {
      for i := 0 to |chars|
        invariant wordBuffer == old(wordBuffer) + WordChars(isWordChar, chars[..i])
      {
        FilterAppend(isWordChar, chars[..i], [chars[i]]);
        assert chars[..i + 1] == chars[..i] + [chars[i]];
        if isWordChar(chars[i]) {
          wordBuffer := wordBuffer + [chars[i]];
        }
      }
      assert chars[..|chars|] == chars;
    }
  }

}
