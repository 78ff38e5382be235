/** The tokenizer `preprocess` of language_detector.py: one line of text becomes a
    sequence of lower-case words, each wrapped in the boundary marker `$`. */
module Tokenizer {

  /** The word-boundary marker put on both ends of every token. */
  const Boundary: char := '$'

  /** The characters Python's `str.isspace` accepts, which `str.rstrip()` and
      `str.split()` treat as whitespace. */
  predicate IsWhitespace(c: char) {
    || c == ' '
    || '\t' <= c <= '\r'
    || '\U{1c}' <= c <= '\U{1f}'
    || c == '\U{85}' || c == '\U{a0}' || c == '\U{1680}'
    || '\U{2000}' <= c <= '\U{200a}'
    || c == '\U{2028}' || c == '\U{2029}' || c == '\U{202f}' || c == '\U{205f}' || c == '\U{3000}'
  }

  predicate IsLetter(c: char) {
    'a' <= c <= 'z'
  }

  /** The characters the pattern `[^a-z ]` does not match, i.e. those `re.sub` keeps. */
  predicate IsKept(c: char) {
    IsLetter(c) || c == ' '
  }

  /** `str.lower()` on one character, restricted to ASCII: `A`-`Z` become `a`-`z`,
      every other character is left as it is. */
  function ToLower(c: char): char {
    if 'A' <= c <= 'Z' then (c as int - 'A' as int + 'a' as int) as char else c
  }

  function Lower(s: string): string {
    seq(|s|, i requires 0 <= i < |s| => ToLower(s[i]))
  }

  /** `str.rstrip()`: the longest prefix that does not end in whitespace. */
  function RStrip(s: string): (r: string)
    ensures |r| <= |s| && r == s[..|r|]
    ensures forall i :: |r| <= i < |s| ==> IsWhitespace(s[i])
    ensures r == [] || !IsWhitespace(r[|r| - 1])
  {
    if |s| > 0 && IsWhitespace(s[|s| - 1]) then RStrip(s[..|s| - 1]) else s
  }

  /** The characters of `s` on which `p` holds, in order. */
  function Select(s: string, p: char -> bool): string {
    if s == [] then [] else (if p(s[0]) then [s[0]] else []) + Select(s[1..], p)
  }

  /** `re.sub("[^a-z ]", '', s)`: every character other than `a`-`z` and space is
      deleted, not replaced. */
  function DropUnwanted(s: string): string {
    Select(s, IsKept)
  }

  /** The one-element list holding the word collected so far, if it is not empty. */
  function Flush(word: string): seq<string> {
    if word == [] then [] else [word]
  }

  /** `str.split()` with no separator, scanning `s` with the current partial `word`:
      runs of whitespace separate words and no empty word is produced. */
  function SplitFrom(s: string, word: string): seq<string>
    decreases |s|
  {
    if s == [] then Flush(word)
    else if IsWhitespace(s[0]) then Flush(word) + SplitFrom(s[1..], [])
    else SplitFrom(s[1..], word + [s[0]])
  }

  function Split(s: string): seq<string> {
    SplitFrom(s, [])
  }

  function Wrap(word: string): string {
    [Boundary] + word + [Boundary]
  }

  /** `preprocess(line)`. */
  function Preprocess(line: string): seq<string> {
    var words := Split(DropUnwanted(Lower(RStrip(line))));
    seq(|words|, i requires 0 <= i < |words| => Wrap(words[i]))
  }

  // ---------------------------------------------------------------------------
  // Reference notions used to state what the tokenizer does

  /** A token as the counting loops expect it: `$`, one or more of `a`-`z`, `$`. */
  predicate IsToken(t: string) {
    && |t| >= 3
    && t[0] == Boundary && t[|t| - 1] == Boundary
    && forall i :: 0 < i < |t| - 1 ==> IsLetter(t[i])
  }

  predicate NotWhitespace(c: char) {
    !IsWhitespace(c)
  }

  function Concat(ws: seq<string>): string {
    if ws == [] then [] else ws[0] + Concat(ws[1..])
  }

  /** The token without its two boundary markers. */
  function Interior(t: string): string {
    if |t| >= 2 then t[1..|t| - 1] else t
  }

  function Interiors(ts: seq<string>): seq<string> {
    seq(|ts|, i requires 0 <= i < |ts| => Interior(ts[i]))
  }

  // ---------------------------------------------------------------------------
  // Select and Lower

  lemma {:induction false} SelectAppend(a: string, b: string, p: char -> bool)
    ensures Select(a + b, p) == Select(a, p) + Select(b, p)
    decreases |a|
  {
    if a != [] {
      assert (a + b)[1..] == a[1..] + b;
      SelectAppend(a[1..], b, p);
    } else {
      assert a + b == b;
    }
  }

  lemma {:induction false} SelectEmpty(s: string, p: char -> bool)
    ensures Select(s, p) == [] <==> forall i :: 0 <= i < |s| ==> !p(s[i])
    decreases |s|
  {
    if s != [] {
      SelectEmpty(s[1..], p);
      assert forall i :: 1 <= i < |s| ==> s[i] == s[1..][i - 1];
    }
  }

  lemma {:induction false} SelectChars(s: string, p: char -> bool)
    ensures forall c :: c in Select(s, p) ==> c in s && p(c)
    decreases |s|
  {
    if s != [] {
      SelectChars(s[1..], p);
    }
  }

  lemma {:induction false} SelectAll(s: string, p: char -> bool)
    requires forall c :: c in s ==> p(c)
    ensures Select(s, p) == s
    decreases |s|
  {
    if s != [] {
      SelectAll(s[1..], p);
    }
  }

  /** Keeping the non-blank characters of what `re.sub` kept keeps exactly the letters. */
  lemma {:induction false} NonBlankOfKept(s: string)
    ensures Select(DropUnwanted(s), NotWhitespace) == Select(s, IsLetter)
    decreases |s|
  {
    if s != [] {
      NonBlankOfKept(s[1..]);
      SelectAppend(if IsKept(s[0]) then [s[0]] else [], Select(s[1..], IsKept), NotWhitespace);
    }
  }

  lemma LowerAppend(a: string, b: string)
    ensures Lower(a + b) == Lower(a) + Lower(b)
  {
  }

  // ---------------------------------------------------------------------------
  // Split: words, and the laws that pin it down

  /** Every word is non-empty and made of characters of the input that are not
      whitespace. */
  lemma {:induction false} SplitFromWords(s: string, word: string)
    requires forall c :: c in word ==> !IsWhitespace(c)
    ensures forall w :: w in SplitFrom(s, word) ==> w != [] && forall c :: c in w ==> c in word || (c in s && !IsWhitespace(c))
    decreases |s|
  {
    if s == [] {
    } else if IsWhitespace(s[0]) {
      SplitFromWords(s[1..], []);
    } else {
      SplitFromWords(s[1..], word + [s[0]]);
    }
  }

  /** Concatenated, the words give back the non-blank characters in order. */
  lemma {:induction false} SplitFromConcat(s: string, word: string)
    ensures Concat(SplitFrom(s, word)) == word + Select(s, NotWhitespace)
    decreases |s|
  {
    if s == [] {
      ConcatFlush(word, []);
    } else if IsWhitespace(s[0]) {
      SplitFromConcat(s[1..], []);
      ConcatAtBlank(s, word);
    } else {
      SplitFromConcat(s[1..], word + [s[0]]);
      ConcatAtLetter(s, word);
    }
  }

  /** The step of `SplitFromConcat` at a whitespace character. */
  lemma ConcatAtBlank(s: string, word: string)
    requires s != [] && IsWhitespace(s[0])
    requires Concat(SplitFrom(s[1..], [])) == [] + Select(s[1..], NotWhitespace)
    ensures Concat(SplitFrom(s, word)) == word + Select(s, NotWhitespace)
  {
    var rest := SplitFrom(s[1..], []);
    assert SplitFrom(s, word) == Flush(word) + rest;
    ConcatFlush(word, rest);
    assert Select(s, NotWhitespace) == Select(s[1..], NotWhitespace);
    assert [] + Select(s[1..], NotWhitespace) == Select(s[1..], NotWhitespace);
  }

  /** The step of `SplitFromConcat` at any other character. */
  lemma ConcatAtLetter(s: string, word: string)
    requires s != [] && !IsWhitespace(s[0])
    requires Concat(SplitFrom(s[1..], word + [s[0]])) == (word + [s[0]]) + Select(s[1..], NotWhitespace)
    ensures Concat(SplitFrom(s, word)) == word + Select(s, NotWhitespace)
  {
    SplitFromAtLetter(s, word);
    SelectAtLetter(s);
    Regroup(Concat(SplitFrom(s, word)), word, s[0], Select(s[1..], NotWhitespace), Select(s, NotWhitespace));
  }

  lemma Regroup(x: string, w: string, c: char, rest: string, sel: string)
    requires x == (w + [c]) + rest
    requires sel == [c] + rest
    ensures x == w + sel
  {
  }

  lemma SplitFromAtLetter(s: string, word: string)
    requires s != [] && !IsWhitespace(s[0])
    ensures SplitFrom(s, word) == SplitFrom(s[1..], word + [s[0]])
  {
  }

  lemma SelectAtLetter(s: string)
    requires s != [] && !IsWhitespace(s[0])
    ensures Select(s, NotWhitespace) == [s[0]] + Select(s[1..], NotWhitespace)
  {
  }

  lemma ConcatFlush(word: string, rest: seq<string>)
    ensures Concat(Flush(word) + rest) == word + Concat(rest)
  {
    if word == [] {
      assert Flush(word) + rest == rest;
    } else {
      assert (Flush(word) + rest)[1..] == rest;
    }
  }

  lemma {:induction false} ConcatAppend(a: seq<string>, b: seq<string>)
    ensures Concat(a + b) == Concat(a) + Concat(b)
    decreases |a|
  {
    if a == [] {
      assert a + b == b;
    } else {
      assert (a + b)[1..] == a[1..] + b;
      ConcatAppend(a[1..], b);
    }
  }

  /** A whitespace character cuts the input in two independently split halves. */
  lemma {:induction false} SplitFromCut(a: string, c: char, b: string, word: string)
    requires IsWhitespace(c)
    ensures SplitFrom(a + [c] + b, word) == SplitFrom(a, word) + Split(b)
    decreases |a|
  {
    if a == [] {
      assert a + [c] + b == [c] + b;
      assert ([c] + b)[1..] == b;
    } else {
      assert (a + [c] + b)[0] == a[0];
      assert (a + [c] + b)[1..] == a[1..] + [c] + b;
      if IsWhitespace(a[0]) {
        SplitFromCut(a[1..], c, b, []);
      } else {
        SplitFromCut(a[1..], c, b, word + [a[0]]);
      }
    }
  }

  lemma SplitCut(a: string, c: char, b: string)
    requires IsWhitespace(c)
    ensures Split(a + [c] + b) == Split(a) + Split(b)
  {
    SplitFromCut(a, c, b, []);
  }

  /** A run free of whitespace is one word. */
  lemma {:induction false} SplitFromWord(s: string, word: string)
    requires forall i :: 0 <= i < |s| ==> !IsWhitespace(s[i])
    ensures SplitFrom(s, word) == Flush(word + s)
    decreases |s|
  {
    if s != [] {
      SplitFromWord(s[1..], word + [s[0]]);
      assert word + [s[0]] + s[1..] == word + s;
    } else {
      assert word + s == word;
    }
  }

  lemma {:induction false} SplitFromBlank(s: string, word: string)
    requires forall c :: c in s ==> IsWhitespace(c)
    ensures SplitFrom(s, word) == Flush(word)
    decreases |s|
  {
    if s != [] {
      SplitFromBlank(s[1..], []);
    }
  }

  /** Trailing whitespace does not change the split. */
  lemma {:induction false} SplitFromTrailingBlank(a: string, b: string, word: string)
    requires forall c :: c in b ==> IsWhitespace(c)
    ensures SplitFrom(a + b, word) == SplitFrom(a, word)
    decreases |a|
  {
    if a == [] {
      assert a + b == b;
      SplitFromBlank(b, word);
    } else {
      assert (a + b)[0] == a[0];
      assert (a + b)[1..] == a[1..] + b;
      if IsWhitespace(a[0]) {
        SplitFromTrailingBlank(a[1..], b, []);
      } else {
        SplitFromTrailingBlank(a[1..], b, word + [a[0]]);
      }
    }
  }

  // ---------------------------------------------------------------------------
  // What `preprocess` promises

  /** Whitespace is left alone by `ToLower`. */
  lemma LowerBlank(s: string)
    requires forall c :: c in s ==> IsWhitespace(c)
    ensures Lower(s) == s
  {
    forall i | 0 <= i < |s| ensures Lower(s)[i] == s[i] {
      assert s[i] in s;
    }
  }

  /** The part `rstrip` removes is whitespace, and stays whitespace once lower-cased. */
  lemma StrippedTail(line: string) returns (tail: string)
    ensures line == RStrip(line) + tail
    ensures forall c :: c in tail ==> IsWhitespace(c)
    ensures Lower(tail) == tail
  {
    var r := RStrip(line);
    tail := line[|r|..];
    assert line == r + tail;
    forall c | c in tail ensures IsWhitespace(c) {
      var i :| 0 <= i < |tail| && tail[i] == c;
      assert tail[i] == line[|r| + i];
    }
    LowerBlank(tail);
  }

  /** `rstrip` is redundant: spaces left at the end are ignored by `split`, and every
      other whitespace character is deleted by the filter. */
  lemma RStripIsRedundant(line: string)
    ensures Split(DropUnwanted(Lower(RStrip(line)))) == Split(DropUnwanted(Lower(line)))
  {
    var r := RStrip(line);
    var tail := StrippedTail(line);
    LowerAppend(r, tail);
    SelectAppend(Lower(r), tail, IsKept);
    SelectChars(tail, IsKept);
    SplitFromTrailingBlank(DropUnwanted(Lower(r)), DropUnwanted(tail), []);
  }

  /** Every token is `$`, one or more of `a`-`z`, `$`. */
  lemma PreprocessTokens(line: string)
    ensures forall t :: t in Preprocess(line) ==> IsToken(t)
  {
    var f := DropUnwanted(Lower(RStrip(line)));
    SelectChars(Lower(RStrip(line)), IsKept);
    SplitFromWords(f, []);
    var words := Split(f);
    forall i | 0 <= i < |words| ensures IsToken(Wrap(words[i])) {
      assert words[i] in words;
      forall j | 0 <= j < |words[i]| ensures IsLetter(words[i][j]) {
        assert words[i][j] in words[i];
      }
    }
  }

  /** Removing the boundary markers gives back the words `split` produced. */
  lemma InteriorsOfTokens(line: string)
    ensures Interiors(Preprocess(line)) == Split(DropUnwanted(Lower(RStrip(line))))
  {
    var words := Split(DropUnwanted(Lower(RStrip(line))));
    forall i | 0 <= i < |words| ensures Interior(Wrap(words[i])) == words[i] {
    }
  }

  /** Whitespace at the end holds no letter. */
  lemma LettersIgnoreBlankTail(r: string, tail: string)
    requires forall c :: c in tail ==> IsWhitespace(c)
    ensures Select(Lower(r + tail), IsLetter) == Select(Lower(r), IsLetter)
  {
    LowerAppend(r, tail);
    LowerBlank(tail);
    assert Select(tail, IsLetter) == [] by {
      SelectEmpty(tail, IsLetter);
      forall i | 0 <= i < |tail| ensures !IsLetter(tail[i]) {
        assert tail[i] in tail;
      }
    }
    SelectAppend(Lower(r), tail, IsLetter);
    assert Lower(r) + [] == Lower(r);
  }

  /** `rstrip` removes no letter. */
  lemma StrippedLetters(line: string)
    ensures Select(Lower(RStrip(line)), IsLetter) == Select(Lower(line), IsLetter)
  {
    var tail := StrippedTail(line);
    LettersIgnoreBlankTail(RStrip(line), tail);
  }

  /** Deleted, not replaced: the tokens' interiors joined together are exactly the
      lower-cased letters of the line, in order. */
  lemma PreprocessKeepsLetters(line: string)
    ensures Concat(Interiors(Preprocess(line))) == Select(Lower(line), IsLetter)
  {
    var lowered := Lower(RStrip(line));
    InteriorsOfTokens(line);
    SplitFromConcat(DropUnwanted(lowered), []);
    assert [] + Select(DropUnwanted(lowered), NotWhitespace) == Select(DropUnwanted(lowered), NotWhitespace);
    NonBlankOfKept(lowered);
    StrippedLetters(line);
  }

  /** A line yields no token exactly when none of its characters lower-cases to a
      letter; in particular an empty or whitespace-only line yields none. */
  lemma PreprocessEmpty(line: string)
    ensures Preprocess(line) == [] <==> forall i :: 0 <= i < |line| ==> !IsLetter(ToLower(line[i]))
  {
    var words := Split(DropUnwanted(Lower(RStrip(line))));
    var letters := Select(Lower(line), IsLetter);
    PreprocessKeepsLetters(line);
    InteriorsOfTokens(line);
    assert Concat(words) == letters;
    SplitFromWords(DropUnwanted(Lower(RStrip(line))), []);
    if words != [] {
      assert words[0] in words;
      assert Concat(words) == words[0] + Concat(words[1..]);
      assert letters != [];
    } else {
      assert letters == [];
    }
    SelectEmpty(Lower(line), IsLetter);
    assert forall i :: 0 <= i < |line| ==> Lower(line)[i] == ToLower(line[i]);
  }

  lemma PreprocessEmptyLine()
    ensures Preprocess("") == []
    ensures Preprocess(" \t\n") == []
  {
    assert RStrip(" \t\n") == [];
  }

  /** Kept characters followed by deleted ones: `re.sub` leaves the kept part. */
  lemma KeepThenDrop(a: string, b: string)
    requires forall c :: c in a ==> IsKept(c)
    requires forall c :: c in b ==> !IsKept(c)
    ensures DropUnwanted(a + b) == a
  {
    SelectAppend(a, b, IsKept);
    SelectAll(a, IsKept);
    SelectEmpty(b, IsKept);
    assert forall i :: 0 <= i < |b| ==> b[i] in b;
  }

  /** Two words separated by one space split into those two words. */
  lemma SplitTwoWords(a: string, b: string)
    requires a != [] && b != []
    requires forall i :: 0 <= i < |a| ==> !IsWhitespace(a[i])
    requires forall i :: 0 <= i < |b| ==> !IsWhitespace(b[i])
    ensures Split(a + [' '] + b) == [a, b]
  {
    SplitCut(a, ' ', b);
    SplitFromWord(a, []);
    SplitFromWord(b, []);
    assert [] + a == a && [] + b == b;
  }

  lemma HelloWorldLowered(line: string)
    requires line == "Hello, World!"
    ensures Lower(RStrip(line)) == ("hello" + [',']) + ([' '] + "world" + ['!'])
  {
    assert RStrip(line) == line;
  }

  lemma HelloWorldFiltered(lowered: string)
    requires lowered == ("hello" + [',']) + ([' '] + "world" + ['!'])
    ensures DropUnwanted(lowered) == "hello" + [' '] + "world"
  {
    var a, b := "hello" + [','], [' '] + "world" + ['!'];
    KeepThenDrop("hello", [',']);
    KeepThenDrop([' '] + "world", ['!']);
    SelectAppend(a, b, IsKept);
  }

  lemma PreprocessHelloWorld(line: string)
    requires line == "Hello, World!"
    ensures Preprocess(line) == ["$hello$", "$world$"]
  {
    HelloWorldLowered(line);
    HelloWorldFiltered(Lower(RStrip(line)));
    SplitTwoWords("hello", "world");
    assert Wrap("hello") == "$hello$";
    assert Wrap("world") == "$world$";
  }

  lemma CafeLowered(line: string)
    requires line == "caf\U{e9}"
    ensures Lower(RStrip(line)) == "caf" + ['\U{e9}']
  {
    assert RStrip(line) == line;
  }

  lemma PreprocessCafe(line: string)
    requires line == "caf\U{e9}"
    ensures Preprocess(line) == ["$caf$"]
  {
    CafeLowered(line);
    KeepThenDrop("caf", ['\U{e9}']);
    SplitFromWord("caf", []);
    assert [] + "caf" == "caf";
    assert Wrap("caf") == "$caf$";
  }
}
