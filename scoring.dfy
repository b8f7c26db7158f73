/** The scoring that `Mainframe.end_test` performs when the countdown
    expires: the typed words are compared with the displayed words index by
    index, the characters of the words that match are counted, and the count
    is turned into characters and words per minute. */
module Scoring {
  import opened Text

  /** How long a test runs, in seconds (`initial_time_limit`). */
  const InitialTimeLimit: nat := 10
  const SecondsPerMinute: nat := 60
  /** The characters that make one word in the words-per-minute figure. */
  const CharsPerWord: nat := 5

  /** What the results box reports. */
  datatype Score = Score(cpm: nat, wpm: nat)

  /** What the typed word at index `i` earns: its length when it equals the
      displayed word at the same index, nothing otherwise (nothing either
      when there is no displayed word at that index). */
  function Credit(typed: seq<string>, generated: seq<string>, i: nat): nat
    requires i < |typed|
  {
    if i < |generated| && typed[i] == generated[i] then |typed[i]| else 0
  }

  /** The number of correctly typed characters: the lengths of the typed
      words that equal the displayed word at the same index, added up.
      Indices past the end of either list earn nothing. */
  function CorrectChars(typed: seq<string>, generated: seq<string>): nat
  {
    if |typed| == 0 || |generated| == 0 then 0
    else (if typed[0] == generated[0] then |typed[0]| else 0)
         + CorrectChars(typed[1..], generated[1..])
  }

  /** The number of characters in the typed words. */
  function TotalLength(words: seq<string>): nat
  {
    if |words| == 0 then 0 else |words[0]| + TotalLength(words[1..])
  }

  // ---------------------------------------------------------------------
  // The scoring loop

  /** Counting one more typed word adds exactly that word's credit. */
  lemma {:induction false} CorrectCharsExtend(typed: seq<string>, generated: seq<string>, i: nat)
    requires i < |typed|
    ensures CorrectChars(typed[..i + 1], generated)
            == CorrectChars(typed[..i], generated) + Credit(typed, generated, i)
    decreases i
  {
    if |generated| == 0 {
    } else if i == 0 {
      assert typed[..1][1..] == [];
    } else {
      CorrectCharsExtend(typed[1..], generated[1..], i - 1);
      assert typed[..i + 1][1..] == typed[1..][..i];
      assert typed[..i][1..] == typed[1..][..i - 1];
    }
  }

  /** The loop of `end_test` with the missing bounds check added: a typed
      word past the last displayed word earns nothing instead of raising an
      `IndexError`. */
  method CountCorrectCharacters(typed: seq<string>, generated: seq<string>) returns (correct: nat)
    ensures correct == CorrectChars(typed, generated)
  {
    correct := 0;
    for i := 0 to |typed|
      invariant correct == CorrectChars(typed[..i], generated)
    {
      CorrectCharsExtend(typed, generated, i);
      if i < |generated| && typed[i] == generated[i] {
        correct := correct + |typed[i]|;
      }
    }
    assert typed[..|typed|] == typed;
  }

  /** `cpm = int(correct_characters * (60 / initial_time_limit))` and
      `wpm = int(cpm // 5)`.  Sixty is a multiple of the ten-second limit, so
      the float quotient is exactly 6 and no rounding happens. */
  function ScoreOf(correct: nat): (s: Score)
    ensures s.cpm * InitialTimeLimit == correct * SecondsPerMinute
    ensures CharsPerWord * s.wpm <= s.cpm < CharsPerWord * s.wpm + CharsPerWord
  {
    var cpm := correct * (SecondsPerMinute / InitialTimeLimit);
    Score(cpm, cpm / CharsPerWord)
  }

  /** The score of a test: both texts as Tk returns them (with a newline at
      the end) are split into words and compared. */
  function Evaluate(typedText: string, displayedText: string): Score
  {
    ScoreOf(CorrectChars(Split(typedText + "\n"), Split(displayedText + "\n")))
  }

  // ---------------------------------------------------------------------
  // Properties of the score

  /** No more characters can be correct than were typed. */
  lemma {:induction false} CorrectCharsAtMostTyped(typed: seq<string>, generated: seq<string>)
    ensures CorrectChars(typed, generated) <= TotalLength(typed)
  {
    if |typed| > 0 && |generated| > 0 {
      CorrectCharsAtMostTyped(typed[1..], generated[1..]);
    }
  }

  /** Full credit exactly when every typed word equals the displayed word at
      its index, that is, when the typed words are a prefix of the displayed
      words. */
  lemma {:induction false} FullCreditIffPrefix(typed: seq<string>, generated: seq<string>)
    requires AllWords(typed)
    ensures CorrectChars(typed, generated) == TotalLength(typed)
            <==> |typed| <= |generated| && typed == generated[..|typed|]
  {
    if |typed| == 0 {
    } else if |generated| == 0 {
    } else {
      FullCreditIffPrefix(typed[1..], generated[1..]);
      CorrectCharsAtMostTyped(typed[1..], generated[1..]);
      if |typed| <= |generated| && typed == generated[..|typed|] {
        assert typed[1..] == generated[1..][..|typed| - 1];
      }
      if |typed| <= |generated| && typed[0] == generated[0]
         && typed[1..] == generated[1..][..|typed| - 1] {
        assert typed == generated[..|typed|];
      }
    }
  }

  /** No credit at all exactly when no typed word equals the displayed word
      at its own index: a correct word typed at another index earns
      nothing. */
  lemma {:induction false} NoCreditIffNoMatch(typed: seq<string>, generated: seq<string>)
    requires AllWords(typed)
    ensures CorrectChars(typed, generated) == 0
            <==> forall i :: 0 <= i < |typed| && i < |generated| ==> typed[i] != generated[i]
  {
    if |typed| > 0 && |generated| > 0 {
      NoCreditIffNoMatch(typed[1..], generated[1..]);
      assert forall i :: 1 <= i < |typed| && i < |generated| ==>
        typed[i] == typed[1..][i - 1] && generated[i] == generated[1..][i - 1];
    }
  }

  /** Words typed past the end of the displayed words change nothing. */
  lemma {:induction false} ExtraWordsEarnNothing(typed: seq<string>, extra: seq<string>, generated: seq<string>)
    requires |typed| >= |generated|
    ensures CorrectChars(typed + extra, generated) == CorrectChars(typed, generated)
  {
    if |generated| > 0 {
      assert (typed + extra)[0] == typed[0];
      assert (typed + extra)[1..] == typed[1..] + extra;
      ExtraWordsEarnNothing(typed[1..], extra, generated[1..]);
    }
  }

  /** With nothing typed (or only whitespace) the score is zero. */
  lemma BlankInputScoresZero(typedText: string, displayedText: string)
    requires AllSpace(typedText)
    ensures Evaluate(typedText, displayedText) == Score(0, 0)
  {
    SplitAllSpace(typedText + "\n");
  }

  // ---------------------------------------------------------------------
  // The loop as written in main.py

  datatype ScoringError = IndexError

  datatype Result<T> = Ok(value: T) | Err(error: ScoringError)

  /** The loop of `end_test` as written: `generated_words[i]` is read for
      every index of the typed words, which raises `IndexError` once the
      typed words outnumber the displayed ones. */
  function CorrectCharsAsWritten(typed: seq<string>, generated: seq<string>): Result<nat>
  {
    if |typed| == 0 then Ok(0)
    else if |generated| == 0 then Err(IndexError)
    else match CorrectCharsAsWritten(typed[1..], generated[1..])
      case Err(e) => Err(e)
      case Ok(rest) => Ok((if typed[0] == generated[0] then |typed[0]| else 0) + rest)
  }

  /** The loop as written fails exactly when more words were typed than
      displayed, and otherwise agrees with the corrected count. */
  lemma {:induction false} AsWrittenFailsIffTooManyWords(typed: seq<string>, generated: seq<string>)
    ensures CorrectCharsAsWritten(typed, generated).Err? <==> |typed| > |generated|
    ensures CorrectCharsAsWritten(typed, generated).Ok? ==>
              CorrectCharsAsWritten(typed, generated).value == CorrectChars(typed, generated)
  {
    if |typed| > 0 && |generated| > 0 {
      AsWrittenFailsIffTooManyWords(typed[1..], generated[1..]);
    }
  }

  /** Typing one word more than the text holds: the loop as written raises,
      where the corrected count gives the same as for the exact text. */
  lemma ExtraWordCrashesAsWritten()
    ensures CorrectCharsAsWritten(["the", "quick", "brown", "fox", "extra"],
                                  ["the", "quick", "brown", "fox"]) == Err(IndexError)
    ensures CorrectChars(["the", "quick", "brown", "fox", "extra"], ["the", "quick", "brown", "fox"])
            == CorrectChars(["the", "quick", "brown", "fox"], ["the", "quick", "brown", "fox"])
            == 16
  {
    var exact := ["the", "quick", "brown", "fox"];
    var typed := ["the", "quick", "brown", "fox", "extra"];
    assert typed == exact + ["extra"];
    AsWrittenFailsIffTooManyWords(typed, exact);
    ExtraWordsEarnNothing(exact, ["extra"], exact);
    ExactCredit();
  }

  // ---------------------------------------------------------------------
  // The worked examples

  /** The text of four words joined by single spaces splits back into
      them. */
  lemma SplitFourWords(a: string, b: string, c: string, d: string)
    requires IsWord(a) && IsWord(b) && IsWord(c) && IsWord(d)
    ensures Split(a + (" " + (b + (" " + (c + (" " + (d + "\n"))))))) == [a, b, c, d]
  {
    var ws := [a, b, c, d];
    assert ws[1..][1..][1..] == [d];
    assert Join(ws[1..][1..]) == c + " " + d;
    assert Join(ws[1..]) == b + " " + (c + " " + d);
    assert Join(ws) == a + " " + (b + " " + (c + " " + d));
    assert Join(ws) + "\n" == a + (" " + (b + (" " + (c + (" " + (d + "\n"))))));
    assert AllWords(ws);
    SplitJoinWords(ws);
    SplitTrailingSpace(Join(ws), '\n');
  }

  /** The words of the worked examples contain no whitespace. */
  lemma ExampleWords()
    ensures IsWord("the") && IsWord("quick") && IsWord("quik")
    ensures IsWord("brown") && IsWord("fox")
  {
  }

  /** The displayed text of the worked examples splits into its four
      words. */
  lemma ShownWords()
    ensures Split("the quick brown fox" + "\n") == ["the", "quick", "brown", "fox"]
  {
    ExampleWords();
    SplitFourWords("the", "quick", "brown", "fox");
    assert "the quick brown fox" + "\n" == "the" + (" " + ("quick" + (" " + ("brown" + (" " + ("fox" + "\n"))))));
  }

  lemma BrownFoxCredit()
    ensures CorrectChars(["brown", "fox"], ["brown", "fox"]) == 8
  {
    assert ["fox"][1..] == [] && ["brown", "fox"][1..] == ["fox"];
    assert CorrectChars(["fox"], ["fox"]) == 3;
  }

  lemma TypoCredit()
    ensures CorrectChars(["the", "quik", "brown", "fox"], ["the", "quick", "brown", "fox"]) == 11
  {
    BrownFoxCredit();
    assert ["the", "quik", "brown", "fox"][1..] == ["quik", "brown", "fox"];
    assert ["the", "quick", "brown", "fox"][1..] == ["quick", "brown", "fox"];
    assert ["quik", "brown", "fox"][1..] == ["quick", "brown", "fox"][1..] == ["brown", "fox"];
  }

  lemma ExactCredit()
    ensures CorrectChars(["the", "quick", "brown", "fox"], ["the", "quick", "brown", "fox"]) == 16
  {
    BrownFoxCredit();
    assert ["the", "quick", "brown", "fox"][1..] == ["quick", "brown", "fox"];
    assert ["quick", "brown", "fox"][1..] == ["brown", "fox"];
  }

  /** Typing "the quik brown fox" against a text whose words are "the
      quick brown fox": the second word earns nothing, the others 3 + 5 + 3
      characters, so 66 characters and 13 words per minute. */
  lemma TypoAgainst(displayedText: string)
    requires Split(displayedText + "\n") == ["the", "quick", "brown", "fox"]
    ensures Evaluate("the quik brown fox", displayedText) == Score(66, 13)
  {
    ExampleWords();
    SplitFourWords("the", "quik", "brown", "fox");
    assert "the quik brown fox" + "\n" == "the" + (" " + ("quik" + (" " + ("brown" + (" " + ("fox" + "\n"))))));
    TypoCredit();
  }

  lemma TypoScenario()
    ensures Evaluate("the quik brown fox", "the quick brown fox") == Score(66, 13)
  {
    ShownWords();
    TypoAgainst("the quick brown fox");
  }

  lemma ExactScenario()
    ensures Evaluate("the quick brown fox", "the quick brown fox") == Score(96, 19)
  {
    ShownWords();
    ExactCredit();
  }
}
