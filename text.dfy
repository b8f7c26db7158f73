/** The three pieces of Python string handling that main.py relies on:
    `str.split()` and `str.strip()` called without an argument, and
    `" ".join(words)`.  Strings are sequences of characters. */
module Text {

  /** Python's `str.isspace` for one character: the separators that
      `split()` and `strip()` use when they are called without an argument. */
  predicate IsSpace(c: char)
  {
    || c == ' '
    || '\t' <= c <= '\r'
    || '\U{1C}' <= c <= '\U{1F}'
    || c == '\U{85}' || c == '\U{A0}' || c == '\U{1680}'
    || '\U{2000}' <= c <= '\U{200A}'
    || c == '\U{2028}' || c == '\U{2029}' || c == '\U{202F}'
    || c == '\U{205F}' || c == '\U{3000}'
  }

  predicate NoSpace(s: string)
  {
    forall i :: 0 <= i < |s| ==> !IsSpace(s[i])
  }

  predicate AllSpace(s: string)
  {
    forall i :: 0 <= i < |s| ==> IsSpace(s[i])
  }

  /** A word as `split()` produces it: non-empty and free of whitespace. */
  predicate IsWord(w: string)
  {
    |w| > 0 && NoSpace(w)
  }

  predicate AllWords(ws: seq<string>)
  {
    forall i :: 0 <= i < |ws| ==> IsWord(ws[i])
  }

  /** The word collected so far, as a list of zero or one words. */
  function Flush(word: string): seq<string>
  {
    if word == [] then [] else [word]
  }

  /** `split()` of `s` when the characters of a word not yet closed,
      `word`, come before it. */
  function SplitFrom(s: string, word: string): (r: seq<string>)
    requires NoSpace(word)
    ensures AllWords(r)
    decreases |s|
  {
    if |s| == 0 then Flush(word)
    else if IsSpace(s[0]) then Flush(word) + SplitFrom(s[1..], [])
    else SplitFrom(s[1..], word + [s[0]])
  }

  /** Python's `s.split()`: the maximal runs of non-whitespace characters,
      in order; runs of whitespace separate words and no empty word is
      produced. */
  function Split(s: string): (r: seq<string>)
    ensures AllWords(r)
  {
    SplitFrom(s, [])
  }

  /** Python's `" ".join(words)`. */
  function Join(words: seq<string>): string
  {
    if |words| == 0 then ""
    else if |words| == 1 then words[0]
    else words[0] + " " + Join(words[1..])
  }

  /** The words of every string of `lines`, one after the other. */
  function SplitAll(lines: seq<string>): seq<string>
  {
    if |lines| == 0 then [] else Split(lines[0]) + SplitAll(lines[1..])
  }

  /** `s` without its leading whitespace. */
  function TrimStart(s: string): (r: string)
    ensures |r| <= |s| && s == s[..|s| - |r|] + r
    ensures AllSpace(s[..|s| - |r|])
    ensures |r| > 0 ==> !IsSpace(r[0])
  {
    if |s| > 0 && IsSpace(s[0]) then TrimStart(s[1..]) else s
  }

  /** `s` without its trailing whitespace. */
  function TrimEnd(s: string): (r: string)
    ensures |r| <= |s| && s == r + s[|r|..]
    ensures AllSpace(s[|r|..])
    ensures |r| > 0 ==> !IsSpace(r[|r| - 1])
  {
    if |s| > 0 && IsSpace(s[|s| - 1]) then TrimEnd(s[..|s| - 1]) else s
  }

  /** Python's `s.strip()`: `s` without the whitespace at either end. */
  function Strip(s: string): (r: string)
    ensures |r| > 0 ==> !IsSpace(r[0]) && !IsSpace(r[|r| - 1])
    ensures r == [] <==> AllSpace(s)
  {
    TrimEnd(TrimStart(s))
  }

  // ---------------------------------------------------------------------
  // How `split()` treats whitespace and joined text

  lemma {:induction false} SplitFromAllSpace(s: string, word: string)
    requires NoSpace(word) && AllSpace(s)
    ensures SplitFrom(s, word) == Flush(word)
    decreases |s|
  {
    if |s| > 0 {
      SplitFromAllSpace(s[1..], []);
    }
  }

  /** Text made only of whitespace has no words; in particular the empty
      string has none. */
  lemma SplitAllSpace(s: string)
    requires AllSpace(s)
    ensures Split(s) == []
  {
    SplitFromAllSpace(s, []);
  }

  /** A whitespace character separates what is before it from what is
      after it: the words of the whole are the words of the two parts. */
  lemma {:induction false} SplitFromSeparated(a: string, sep: char, b: string, word: string)
    requires IsSpace(sep) && NoSpace(word)
    ensures SplitFrom(a + [sep] + b, word) == SplitFrom(a, word) + Split(b)
    decreases |a|
  {
    var s := a + [sep] + b;
    if |a| == 0 {
      assert s[0] == sep && s[1..] == b;
    } else {
      assert s[0] == a[0] && s[1..] == a[1..] + [sep] + b;
      if IsSpace(a[0]) {
        SplitFromSeparated(a[1..], sep, b, []);
      } else {
        SplitFromSeparated(a[1..], sep, b, word + [a[0]]);
      }
    }
  }

  lemma SplitSeparated(a: string, sep: char, b: string)
    requires IsSpace(sep)
    ensures Split(a + [sep] + b) == Split(a) + Split(b)
  {
    SplitFromSeparated(a, sep, b, []);
  }

  /** Whitespace at the end of a text adds no word: Tk's trailing newline
      does not change what `split()` returns. */
  lemma SplitTrailingSpace(s: string, c: char)
    requires IsSpace(c)
    ensures Split(s + [c]) == Split(s)
  {
    SplitSeparated(s, c, []);
    assert s + [c] + [] == s + [c];
  }

  /** Splitting the joined text yields the words of every joined string, in
      order: joining with a space never glues two words together. */
  lemma {:induction false} SplitJoin(ws: seq<string>)
    ensures Split(Join(ws)) == SplitAll(ws)
  {
    if |ws| == 1 {
      assert SplitAll(ws[1..]) == [];
    } else if |ws| > 1 {
      SplitSeparated(ws[0], ' ', Join(ws[1..]));
      SplitJoin(ws[1..]);
    }
  }

  lemma {:induction false} SplitFromWord(w: string, word: string)
    requires NoSpace(w) && NoSpace(word) && |word + w| > 0
    ensures SplitFrom(w, word) == [word + w]
    decreases |w|
  {
    if |w| == 0 {
      assert word + w == word;
    } else {
      assert word + w == (word + [w[0]]) + w[1..];
      SplitFromWord(w[1..], word + [w[0]]);
    }
  }

  /** A single word splits into itself. */
  lemma SplitWord(w: string)
    requires IsWord(w)
    ensures Split(w) == [w]
  {
    SplitFromWord(w, []);
    assert [] + w == w;
  }

  /** When every string is a word, splitting each of them gives the list
      back. */
  lemma {:induction false} SplitAllWords(ws: seq<string>)
    requires AllWords(ws)
    ensures SplitAll(ws) == ws
  {
    if |ws| > 0 {
      SplitWord(ws[0]);
      SplitAllWords(ws[1..]);
    }
  }

  /** `split()` undoes `" ".join` on a list of words. */
  lemma SplitJoinWords(ws: seq<string>)
    requires AllWords(ws)
    ensures Split(Join(ws)) == ws
  {
    SplitJoin(ws);
    SplitAllWords(ws);
  }

  lemma {:induction false} SplitAfterSpace(a: string, b: string)
    requires AllSpace(a)
    ensures Split(a + b) == Split(b)
    decreases |a|
  {
    if |a| > 0 {
      assert (a + b)[0] == a[0] && (a + b)[1..] == a[1..] + b;
      assert Split(a + b) == SplitFrom(a[1..] + b, []);
      SplitAfterSpace(a[1..], b);
    } else {
      assert a + b == b;
    }
  }

  lemma SplitBeforeSpace(a: string, b: string)
    requires AllSpace(b)
    ensures Split(a + b) == Split(a)
  {
    if |b| == 0 {
      assert a + b == a;
    } else {
      SplitSeparated(a, b[0], b[1..]);
      assert a + b == a + [b[0]] + b[1..];
      SplitAllSpace(b[1..]);
    }
  }

  /** `strip()` removes whitespace only, so it never changes the words. */
  lemma SplitStrip(s: string)
    ensures Split(Strip(s)) == Split(s)
  {
    var t := TrimStart(s);
    SplitAfterSpace(s[..|s| - |t|], t);
    var r := TrimEnd(t);
    SplitBeforeSpace(r, t[|r|..]);
  }

  /** A word on a line of its own strips back to the word. */
  lemma StripWordLine(w: string)
    requires IsWord(w)
    ensures Strip(w + "\n") == w
  {
    var s := w + "\n";
    assert s[0] == w[0];
    assert TrimStart(s) == s;
    assert s[..|s| - 1] == w;
    assert TrimEnd(s) == TrimEnd(w) == w;
  }
}
