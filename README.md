# Typing speed test: session and scoring model

A model of the logic inside `Mainframe` of the tkinter typing speed test
(`main.py`), without its widgets. The text box shows every word of the word
file, joined by single spaces. The first key press in the typing field starts
a ten-second countdown. Each tick takes one second off. The tick after the
time reaches zero disables the typing field and scores the attempt. Scoring
compares the typed words with the displayed words index by index and counts
the characters of the words that match exactly. The count becomes
characters per minute (CPM) and words per minute (WPM, CPM floor-divided by
5). Restart cancels the countdown and resets everything.

Three modules:

- `Text` (`text.dfy`): Python's `str.split()`, `str.strip()` and
  `" ".join(...)` on strings. Whitespace is Python's `str.isspace` set.
  It proves that splitting a space-joined list of words gives the list back,
  and that the newline Tk appends to a widget's text changes no word.
- `Scoring` (`scoring.dfy`): the correct-character count as a function
  (`CorrectChars`), the loop of `end_test` as a method proved to compute it
  (`CountCorrectCharacters`), the CPM/WPM arithmetic (`ScoreOf`), the
  end-to-end score of two widget texts (`Evaluate`), and the loop as
  written, which can raise `IndexError` (see Findings).
- `Session` (`session.dfy`): the class `Mainframe` with the state
  `countdown`, `_decrement_count`, `end_test` and `restart` update: seconds
  left, the running flag, the number of pending tick callbacks, whether the
  typing field is enabled, the CPM/WPM counters, the two widget texts, and
  the scores reported so far. `Valid()` is the invariant every event keeps.
  `TicksToExpiry()` counts the ticks still due before scoring.

The word file is an input: a sequence of lines, each still carrying its
newline, to which the model applies `strip()`. Tk's timer is a count of
pending callbacks. The event loop delivers them by calling `Tick`, and
`RunUntilExpiry` stands for it delivering them one after another. The
results box is modelled as appending the reported `Score` to `results`.

Notes on the code's behaviour:

- The code does not drop blank lines of the word file. It joins them as
  empty strings, so the text holds doubled spaces. `split()` drops these
  again, so blank lines never produce words (`GeneratedTextWords`).
- An empty word file is not an error. The text box is simply empty.
- Restart resets the fields in place rather than replacing the session.

The scoring loop does not clamp to the shorter word list, and typing more
words than are displayed raises `IndexError`. That loop is modelled as
written (`CorrectCharsAsWritten`), but the session scores with the clamped
count (see Findings and Left out).

## Model

| member | source | states |
|---|---|---|
| `Text.IsSpace` | main.py:153 | definition: the whitespace set of Python's `str.isspace`, which `split()` and `strip()` without arguments use |
| `Text.Join` | main.py:120 | definition of `" ".join`; its partner is `SplitJoin` below |
| `Text.Split` | main.py:153 | every word `split()` returns is non-empty and free of whitespace |
| `Text.SplitFrom` | main.py:153 | the words produced while a word is being collected are all non-empty and whitespace-free |
| `Text.SplitAllSpace` | main.py:152-153 | text made only of whitespace, the empty string included, has no words |
| `Text.SplitSeparated` | main.py:120 | a whitespace character splits a text into the words before it followed by the words after it |
| `Text.SplitTrailingSpace` | main.py:152-157 | the newline Tk's `get("1.0", END)` appends adds no word |
| `Text.SplitJoin` | main.py:120 | splitting a space-joined list gives the words of each element, in order |
| `Text.SplitWord` | main.py:153 | a single word splits into itself |
| `Text.SplitAllWords` | main.py:153 | a list of words, split element by element, is unchanged |
| `Text.SplitJoinWords` | main.py:120 | `split()` undoes `" ".join` on a list of words |
| `Text.TrimStart` | main.py:116 | the result is a suffix of the input, everything removed is whitespace, and it does not start with whitespace |
| `Text.TrimEnd` | main.py:116 | the result is a prefix of the input, everything removed is whitespace, and it does not end with whitespace |
| `Text.Strip` | main.py:116 | `strip()` leaves no whitespace at either end, and yields "" exactly for all-whitespace text |
| `Text.SplitStrip` | main.py:116 | `strip()` never changes the words of a line |
| `Text.StripWordLine` | main.py:116 | a word on a line of its own strips back to the word |
| `Scoring.CorrectChars` | main.py:159-164 | definition of the correct-character count, clamped to the shorter word list; its properties are the lemmas below |
| `Scoring.CorrectCharsExtend` | main.py:162-164 | counting one more typed word adds its length when it equals the displayed word at the same index, and nothing otherwise (nothing either when no displayed word has that index) |
| `Scoring.CountCorrectCharacters` | main.py:159-164 | the scoring loop, with the bounds check added, returns `CorrectChars` of the two word lists |
| `Scoring.ScoreOf` | main.py:167-168 | CPM times the 10-second limit equals correct characters times 60, and `5*wpm <= cpm < 5*wpm + 5` |
| `Scoring.CorrectCharsAtMostTyped` | main.py:159-164 | correct characters never exceed the characters of the typed words |
| `Scoring.FullCreditIffPrefix` | main.py:162-164 | full credit if and only if the typed words are a prefix of the displayed words |
| `Scoring.NoCreditIffNoMatch` | main.py:162-164 | zero credit if and only if no typed word equals the displayed word at its own index, so a correct word at the wrong index earns nothing |
| `Scoring.ExtraWordsEarnNothing` | main.py:162-163 | words typed past the last displayed word do not change the count |
| `Scoring.Evaluate` | main.py:152-168 | definition: both widget texts, with Tk's trailing newline, are split and scored; its properties are `BlankInputScoresZero` and the worked examples |
| `Scoring.BlankInputScoresZero` | main.py:152-168 | empty or all-whitespace input scores CPM 0 and WPM 0 |
| `Scoring.CorrectCharsAsWritten` | main.py:162-163 | definition of the loop as written, with `IndexError` as an error result; its partner is `AsWrittenFailsIffTooManyWords` |
| `Scoring.AsWrittenFailsIffTooManyWords` | main.py:162-163 | the loop as written raises `IndexError` exactly when more words were typed than displayed, and otherwise equals the corrected count |
| `Scoring.ExtraWordCrashesAsWritten` | main.py:162-163 | five typed words against four displayed: the loop as written raises, while the corrected count equals the exact-match count of 16 |
| `Scoring.TypoAgainst` | main.py:152-168 | "the quik brown fox" against the words "the quick brown fox" scores CPM 66 and WPM 13 |
| `Scoring.TypoScenario` | main.py:152-168 | the same for the literal text "the quick brown fox" |
| `Scoring.ExactScenario` | main.py:152-168 | typing the text exactly scores 16 characters, CPM 96 and WPM 19 |
| `Session.StripEach` | main.py:116 | one entry per line of the file, in file order, each the `strip()` of its line |
| `Session.GeneratedText` | main.py:113-121 | definition of the text box content: the stripped lines joined by single spaces; its partners are `GeneratedTextWords` and `GeneratedTextRoundTrip` |
| `Session.SplitAllStripEach` | main.py:116 | the words of the stripped lines are the words of the file |
| `Session.GeneratedTextWords` | main.py:113-121 | the words read back from the text box are the words of the file in file order, with no sampling and no loss |
| `Session.StripEachWordLines` | main.py:116 | a file holding one word per line, each line ending in a newline, strips to exactly those words |
| `Session.GeneratedTextRoundTrip` | main.py:113-121 | with one word per line, the text box reads back as exactly the stripped lines |
| `Session.Mainframe.constructor` | main.py:27-84 | the session starts idle: counters at 0, 10 seconds left, no tick pending, text box filled, typing field empty and enabled |
| `Session.Mainframe.KeyPress` | main.py:124-134 | a key press while running, or with no time left, changes nothing; otherwise the countdown runs with exactly one tick pending and the time unchanged |
| `Session.Mainframe.Edit` | main.py:78-84 | the typing field takes the typed content only while it is enabled |
| `Session.Mainframe.Tick` | main.py:136-144 | with time left, one second is taken off and one tick re-armed; at zero, the countdown stops, no tick is pending, and exactly one score, with the clamped count, is reported; either way one fewer tick remains before expiry |
| `Session.Mainframe.EndTest` | main.py:147-169 | the typing field is disabled and the score of the current texts, with the clamped count, is reported once; the CPM/WPM counters are not written |
| `Session.Mainframe.Restart` | main.py:93-110 | no tick pending, not running, 10 seconds left, counters at 0, typing field enabled and empty, text box regenerated from the file |
| `Session.RunUntilExpiry` | main.py:136-144 | a countdown started with `c` seconds left is scored after exactly `c + 1` ticks, and scored once |
| `Session.ExampleFileTypoScore` | main.py:113-121 | the four-line example file with the typo'd input scores CPM 66 and WPM 13 |
| `Session.TypoSession` | main.py:124-169 | key press, typing with one typo, then expiry: 11 ticks and the score CPM 66, WPM 13 |

## Left out

- Widget construction, layout, fonts and label states (main.py:1-22, 37-74, 77-83, 86-90): they are UI only.
- The results box (main.py:169): the reported score is appended to `results` instead.
- Reading `random_word_list.txt` (main.py:115-116): this is file I/O. The lines are a parameter. A missing file raises in the source and is not modelled.
- Real time (main.py:134, 141): the 0 ms and 1000 ms delays and Tk's event loop are not modelled. Pending callbacks are a count, and the environment calls `Tick`.
- Session.Mainframe.EndTest: scores with the clamped count. When more words are typed than displayed, the source raises `IndexError` after disabling the field, and reports nothing (see Findings).
- Session.Mainframe.Tick: at zero it reports the clamped score. In the source, the `IndexError` above is raised after the countdown is stopped, so with too many typed words no score is shown.
- Session.Mainframe.Restart: cancelling the pending callback is modelled as clearing it. What `after_cancel(None)` does when restart is pressed before any key press is Tk library behaviour outside `main.py`.
- Session.Mainframe.Edit: Tk's key handling is reduced to "the field now holds this text". Cursor movement and per-key insertion are not modelled.
- Session.RunUntilExpiry: it delivers ticks with no typing in between. Typing between ticks is covered by `Edit`'s own contract, not by this driver.
- Scoring.ScoreOf: the float product `correct_characters * 6.0` is exact only below 2^53. The model uses exact integers, so it does not capture rounding for counts beyond about 1.5 * 10^15 characters.
- The TODO notes (main.py:172-177): they describe features that do not exist.

## Findings

| source | as written | input that shows it | evidently intended | confidence | as-written member | corrected member |
|---|---|---|---|---|---|---|
| main.py:162-163 | `generated_words[i]` is read for every index of the typed words | typed "the quick brown fox extra" against displayed "the quick brown fox": index 4 raises `IndexError`, and no score is reported | typed words past the last displayed word earn nothing | high; not executed | `Scoring.ExtraWordCrashesAsWritten` | `Scoring.CountCorrectCharacters` |
