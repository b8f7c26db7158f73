/** The session state of `Mainframe`: the countdown started by the first key
    press, the ticks that count it down, the scoring at expiry and the
    restart button.  Tk's widgets appear only through what the session reads
    and writes: the text of the read-only text box, the text of the typing
    field and whether that field is enabled.  Tk's timer is abstracted to a
    number of pending tick callbacks that the event loop delivers through
    `Tick`. */
module Session {
  import opened Text
  import opened Scoring

  /** The lines of the word file with `strip()` applied to each. */
  function StripEach(lines: seq<string>): (r: seq<string>)
    ensures |r| == |lines|
    ensures forall i :: 0 <= i < |lines| ==> r[i] == Strip(lines[i])
  {
    if |lines| == 0 then [] else [Strip(lines[0])] + StripEach(lines[1..])
  }

  /** What `generate_words` puts in the text box: the stripped lines of the
      word file joined by single spaces, all of them, in file order. */
  function GeneratedText(lines: seq<string>): string
  {
    Join(StripEach(lines))
  }

  /** Stripping the lines does not change the words of the file. */
  lemma {:induction false} SplitAllStripEach(lines: seq<string>)
    ensures SplitAll(StripEach(lines)) == SplitAll(lines)
  {
    if |lines| > 0 {
      var r := StripEach(lines);
      assert r[0] == Strip(lines[0]) && r[1..] == StripEach(lines[1..]);
      SplitStrip(lines[0]);
      SplitAllStripEach(lines[1..]);
    }
  }

  /** The words `end_test` reads back from the text box are the words of the
      word file, in file order: nothing is sampled, shuffled or lost, and
      blank lines contribute nothing. */
  lemma GeneratedTextWords(lines: seq<string>)
    ensures Split(GeneratedText(lines) + "\n") == SplitAll(lines)
  {
    SplitTrailingSpace(GeneratedText(lines), '\n');
    SplitJoin(StripEach(lines));
    SplitAllStripEach(lines);
  }

  /** When every line of the word file holds one word, the text box holds
      exactly those words and reads back as them. */
  lemma GeneratedTextRoundTrip(lines: seq<string>)
    requires AllWords(StripEach(lines))
    ensures Split(GeneratedText(lines) + "\n") == StripEach(lines)
  {
    SplitTrailingSpace(GeneratedText(lines), '\n');
    SplitJoinWords(StripEach(lines));
  }

  /** The three states of a test: waiting for the first key press, counting
      down, and finished with the typing field disabled. */
  datatype Phase = Idle | Counting | Expired

  class Mainframe {
    /** `time_var`: the seconds left. */
    var timeLeft: int
    /** `_is_countdown_running`. */
    var running: bool
    /** How many `_decrement_count` callbacks are scheduled with Tk. */
    var pendingTicks: nat
    /** Whether the typing field is in the "normal" state. */
    var inputEnabled: bool
    /** `CPM_var` and `WPM_var`: the counters shown in the menu bar. */
    var cpm: int
    var wpm: int
    /** The content of the read-only text box. */
    var displayedText: string
    /** The content of the typing field. */
    var typedText: string
    /** The scores shown in the results box, one per finished test. */
    var results: seq<Score>

    /** The invariant every event keeps: the time stays within the limit,
        exactly one tick is pending while the countdown runs and none
        otherwise, a stopped countdown is either fresh (full time, input
        open) or expired (no time, input closed, a score reported), and the
        menu-bar counters stay at zero. */
    ghost predicate Valid()
      reads this
    {
      && 0 <= timeLeft <= InitialTimeLimit
      && pendingTicks == (if running then 1 else 0)
      && (running ==> inputEnabled)
      && (!running && inputEnabled ==> timeLeft == InitialTimeLimit)
      && (!inputEnabled ==> timeLeft == 0 && |results| > 0)
      && cpm == 0 && wpm == 0
    }

    /** The phase the session is in, read off the running flag and the
        state of the typing field. */
    ghost function CurrentPhase(): Phase
      reads this
    {
      if running then Counting else if inputEnabled then Idle else Expired
    }

    /** The ticks still to be delivered before the test is scored. */
    ghost function TicksToExpiry(): nat
      reads this
      requires Valid()
    {
      if running then timeLeft + 1 else 0
    }

    /** `Mainframe.__init__`, without the widgets: counters at zero, the
        full time left, no countdown, the text box filled from the word
        file and an empty, enabled typing field. */
    constructor (lines: seq<string>)
      ensures Valid() && CurrentPhase() == Idle
      ensures timeLeft == InitialTimeLimit && !running && pendingTicks == 0
      ensures inputEnabled && cpm == 0 && wpm == 0
      ensures displayedText == GeneratedText(lines) && typedText == ""
      ensures results == []
    {
      cpm, wpm := 0, 0;
      timeLeft := InitialTimeLimit;
      pendingTicks := 0;
      running := false;
      displayedText := GeneratedText(lines);
      typedText := "";
      inputEnabled := true;
      results := [];
    }

    /** `countdown`, bound to every key press in the typing field.  A press
        while the countdown runs, or once the time is used up, changes
        nothing; otherwise the countdown starts with one tick scheduled at
        once. */
    method KeyPress()
      requires Valid()
      modifies this
      ensures Valid()
      ensures old(running) || old(timeLeft) == 0 ==> unchanged(this)
      ensures !old(running) && old(timeLeft) > 0 ==>
                running && pendingTicks == 1 && CurrentPhase() == Counting
                && TicksToExpiry() == old(timeLeft) + 1
      ensures timeLeft == old(timeLeft) && inputEnabled == old(inputEnabled)
      ensures typedText == old(typedText) && displayedText == old(displayedText)
      ensures results == old(results)
    {
      if running {
        return;
      }
      var count := timeLeft;
      if count > 0 {
        running := true;
        pendingTicks := pendingTicks + 1;
      }
    }

    /** Tk's own handling of a key in the typing field, which leaves the
        field holding `content`; a disabled field ignores it. */
    method Edit(content: string)
      requires Valid()
      modifies this
      ensures Valid()
      ensures typedText == if old(inputEnabled) then content else old(typedText)
      ensures timeLeft == old(timeLeft) && running == old(running)
      ensures pendingTicks == old(pendingTicks) && inputEnabled == old(inputEnabled)
      ensures displayedText == old(displayedText) && results == old(results)
    {
      if inputEnabled {
        typedText := content;
      }
    }

    /** `_decrement_count`, run when the pending tick fires.  With time left
        it takes one second off and schedules the next tick; at zero it stops
        the countdown, schedules nothing and scores the test. */
    method Tick()
      requires Valid() && pendingTicks > 0
      modifies this
      ensures Valid()
      ensures TicksToExpiry() == old(TicksToExpiry()) - 1
      ensures old(timeLeft) > 0 ==>
                timeLeft == old(timeLeft) - 1 && running && pendingTicks == 1
                && inputEnabled && results == old(results)
      ensures old(timeLeft) == 0 ==>
                timeLeft == 0 && !running && pendingTicks == 0 && CurrentPhase() == Expired
                && results == old(results) + [Evaluate(typedText, displayedText)]
      ensures typedText == old(typedText) && displayedText == old(displayedText)
    {
      pendingTicks := pendingTicks - 1;
      var count := timeLeft;
      if count > 0 {
        count := count - 1;
        timeLeft := count;
        pendingTicks := pendingTicks + 1;
      } else {
        running := false;
        EndTest();
      }
    }

    /** `end_test`: disable the typing field, split both texts into words,
        count the correct characters and report the score.  The menu-bar
        counters are not written. */
    method EndTest()
      requires !running && pendingTicks == 0 && timeLeft == 0 && cpm == 0 && wpm == 0
      modifies this
      ensures Valid() && CurrentPhase() == Expired
      ensures results == old(results) + [Evaluate(typedText, displayedText)]
      ensures timeLeft == 0 && !running && pendingTicks == 0
      ensures typedText == old(typedText) && displayedText == old(displayedText)
    {
      inputEnabled := false;
      var userWords := Split(typedText + "\n");
      var generatedWords := Split(displayedText + "\n");
      var correct := CountCorrectCharacters(userWords, generatedWords);
      results := results + [ScoreOf(correct)];
    }

    /** `restart`: cancel the pending tick, stop the countdown, refill the
        text box from the word file, enable and clear the typing field, and
        reset the counters and the time. */
    method Restart(lines: seq<string>)
      requires Valid()
      modifies this
      ensures Valid() && CurrentPhase() == Idle
      ensures pendingTicks == 0 && !running && timeLeft == InitialTimeLimit
      ensures cpm == 0 && wpm == 0
      ensures inputEnabled && typedText == ""
      ensures displayedText == GeneratedText(lines)
      ensures results == old(results)
    {
      var text := GeneratedText(lines);
      pendingTicks := 0;
      running := false;
      displayedText := text;
      inputEnabled := true;
      typedText := "";
      cpm, wpm := 0, 0;
      timeLeft := InitialTimeLimit;
    }
  }

  /** Tk's event loop delivering the scheduled ticks of a running countdown
      while nothing else happens: the test is scored after exactly one tick
      more than the seconds that were left, and scored once. */
  method RunUntilExpiry(m: Mainframe) returns (ticks: nat)
    requires m.Valid() && m.running
    modifies m
    ensures m.Valid() && m.CurrentPhase() == Expired
    ensures ticks == old(m.timeLeft) + 1
    ensures m.results == old(m.results) + [Evaluate(old(m.typedText), old(m.displayedText))]
  {
    ticks := 0;
    while m.pendingTicks > 0
      invariant m.Valid()
      invariant m.typedText == old(m.typedText) && m.displayedText == old(m.displayedText)
      invariant m.running ==> ticks + m.timeLeft == old(m.timeLeft) && m.results == old(m.results)
      invariant !m.running ==> ticks == old(m.timeLeft) + 1 && m.CurrentPhase() == Expired
                               && m.results == old(m.results) + [Evaluate(m.typedText, m.displayedText)]
      decreases m.TicksToExpiry()
    {
      m.Tick();
      ticks := ticks + 1;
    }
  }

  /** A word file holding one word per line reads back as those words. */
  lemma StripEachWordLines(lines: seq<string>, words: seq<string>)
    requires |lines| == |words| && AllWords(words)
    requires forall i :: 0 <= i < |lines| ==> lines[i] == words[i] + "\n"
    ensures StripEach(lines) == words
  {
    forall i | 0 <= i < |lines|
      ensures StripEach(lines)[i] == words[i]
    {
      StripWordLine(words[i]);
    }
  }

  /** The four-line word file of the worked example. */
  const ExampleFile: seq<string> := ["the\n", "quick\n", "brown\n", "fox\n"]

  lemma ExampleFileTypoScore()
    ensures Evaluate("the quik brown fox", GeneratedText(ExampleFile)) == Score(66, 13)
  {
    var words := ["the", "quick", "brown", "fox"];
    ExampleWords();
    assert AllWords(words);
    StripEachWordLines(ExampleFile, words);
    GeneratedTextRoundTrip(ExampleFile);
    TypoAgainst(GeneratedText(ExampleFile));
  }

  /** A whole test on a four-line word file: a key press starts the
      countdown, the user types the text with one typo, and after eleven
      ticks the score is reported. */
  method TypoSession() returns (ticks: nat, score: Score)
    ensures ticks == InitialTimeLimit + 1
    ensures score == Score(66, 13)
  {
    var typed := "the quik brown fox";
    ExampleFileTypoScore();
    var m := new Mainframe(ExampleFile);
    m.KeyPress();
    m.Edit(typed);
    ticks := RunUntilExpiry(m);
    score := m.results[0];
  }
}
