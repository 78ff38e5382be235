/** The counting loops of `create_model` and of the first half of `predict` in
    language_detector.py. The file contents are given as the sequence of its lines;
    opening and reading the file are not part of this model. */
module Counting {

  import opened Tables
  import opened Tokenizer

  /** Training reads the lines `[500:600]`, testing the lines `[20:500]`. */
  const TrainFrom: nat := 500
  const TrainTo: nat := 600
  const TestFrom: nat := 20
  const TestTo: nat := 500

  /** Training uses at most this many tokens of each line (`tokens[0:50]`). */
  const TokensPerLine: nat := 50

  function Min(a: int, b: int): int {
    if a <= b then a else b
  }

  /** Python's `s[lo:hi]` for non-negative bounds: both bounds are clamped to the
      length, and the slice is empty when `lo >= hi`. */
  function Slice<T>(s: seq<T>, lo: nat, hi: nat): (r: seq<T>)
    ensures |r| == if lo < hi && lo < |s| then Min(hi, |s|) - lo else 0
    ensures forall i :: 0 <= i < |r| ==> r[i] == s[lo + i]
  {
    if lo < hi && lo < |s| then s[lo..Min(hi, |s|)] else []
  }

  /** The tokens one line contributes: all of them, or the first `n` for `Some(n)`. */
  function LineTokens(line: string, cap: Option<nat>): seq<string> {
    Capped(Preprocess(line), cap)
  }

  /** `tokens` itself, or `tokens[0:n]` for `Some(n)`. */
  function Capped(tokens: seq<string>, cap: Option<nat>): seq<string> {
    match cap
    case None => tokens
    case Some(n) => Slice(tokens, 0, n)
  }

  function Flatten<T>(xss: seq<seq<T>>): seq<T>
    decreases |xss|
  {
    if xss == [] then [] else Flatten(xss[..|xss| - 1]) + xss[|xss| - 1]
  }

  /** The tokens the counting loop visits, line after line. */
  function TokensOf(lines: seq<string>, cap: Option<nat>): seq<string> {
    Flatten(PerLine(lines, cap))
  }

  /** The tokens of each line, line by line. */
  function PerLine(lines: seq<string>, cap: Option<nat>): seq<seq<string>> {
    seq(|lines|, i requires 0 <= i < |lines| => LineTokens(lines[i], cap))
  }

  /** The tokens `create_model` counts. */
  function TrainingTokens(lines: seq<string>): seq<string> {
    TokensOf(Slice(lines, TrainFrom, TrainTo), Some(TokensPerLine))
  }

  /** The tokens the first half of `predict` counts. */
  function TestTokens(lines: seq<string>): seq<string> {
    TokensOf(Slice(lines, TestFrom, TestTo), None)
  }

  /** The characters one token counts as unigrams: positions `0 .. len(token)-2`,
      so never its final character. */
  function TokenUnigrams(t: string): seq<char> {
    if |t| == 0 then [] else seq(|t| - 1, i requires 0 <= i < |t| - 1 => t[i])
  }

  /** The two-character substrings `token[i:i+2]` for `i` in `0 .. len(token)-2`. */
  function TokenBigrams(t: string): seq<string> {
    if |t| == 0 then [] else seq(|t| - 1, i requires 0 <= i < |t| - 1 => t[i..i + 2])
  }

  function Map<A, B>(f: A -> B, s: seq<A>): seq<B> {
    seq(|s|, i requires 0 <= i < |s| => f(s[i]))
  }

  /** The characters counted as unigrams, token after token. */
  function UnigramStream(ts: seq<string>): seq<char> {
    Flatten(Map(TokenUnigrams, ts))
  }

  /** The bigrams counted, token after token. */
  function BigramStream(ts: seq<string>): seq<string> {
    Flatten(Map(TokenBigrams, ts))
  }

  /** The number of character positions the loop visits in a token: `len(token) - 1`. */
  function Positions(t: string): nat {
    if |t| == 0 then 0 else |t| - 1
  }

  /** The sum of `Positions` over a token sequence. */
  function TotalPositions(ts: seq<string>): nat
    decreases |ts|
  {
    if ts == [] then 0 else TotalPositions(ts[..|ts| - 1]) + Positions(ts[|ts| - 1])
  }

  /** Bigrams whose first character is `x`. */
  function StartsWith(x: char): string -> bool {
    b => |b| > 0 && b[0] == x
  }

  // ---------------------------------------------------------------------------
  // The counting loops

  /** The innermost loop: every position but the last of `token` increments the
      unigram of its character and the bigram starting there. */
  method CountToken(bigrams: CountTable<string>, unigrams: CountTable<char>, token: string,
                    ghost bs: seq<string>, ghost us: seq<char>)
    returns (bigrams': CountTable<string>, unigrams': CountTable<char>)
    requires bigrams == TableOf(bs) && unigrams == TableOf(us)
    ensures bigrams' == TableOf(bs + TokenBigrams(token))
    ensures unigrams' == TableOf(us + TokenUnigrams(token))
  {
    bigrams', unigrams' := bigrams, unigrams;
    var i := 0;
    assert bs + TokenBigrams(token)[..0] == bs && us + TokenUnigrams(token)[..0] == us;
    while i < |token| - 1
      invariant 0 <= i <= Positions(token)
      invariant bigrams' == TableOf(bs + TokenBigrams(token)[..i])
      invariant unigrams' == TableOf(us + TokenUnigrams(token)[..i])
    {
      var current := token[i];
      var bigram := token[i..i + 2];
      CountPosition(token, i, bs, us);
      unigrams' := unigrams'.Increment(current);
      bigrams' := bigrams'.Increment(bigram);
      i := i + 1;
    }
    assert TokenBigrams(token)[..i] == TokenBigrams(token);
    assert TokenUnigrams(token)[..i] == TokenUnigrams(token);
  }

  /** Counting token `j` of a line extends both streams by that token's part. */
  lemma NextToken(bs: seq<string>, us: seq<char>, tokens: seq<string>, j: nat)
    requires j < |tokens|
    ensures bs + BigramStream(tokens[..j + 1]) == bs + BigramStream(tokens[..j]) + TokenBigrams(tokens[j])
    ensures us + UnigramStream(tokens[..j + 1]) == us + UnigramStream(tokens[..j]) + TokenUnigrams(tokens[j])
  {
    assert tokens[..j + 1] == tokens[..j] + [tokens[j]];
    StreamsAppend(tokens[..j], tokens[j]);
  }

  /** Counting position `i` of a token extends both counted prefixes by one. */
  lemma CountPosition(t: string, i: nat, bs: seq<string>, us: seq<char>)
    requires i < |t| - 1
    ensures TableOf(bs + TokenBigrams(t)[..i + 1]) == TableOf(bs + TokenBigrams(t)[..i]).Increment(t[i..i + 2])
    ensures TableOf(us + TokenUnigrams(t)[..i + 1]) == TableOf(us + TokenUnigrams(t)[..i]).Increment(t[i])
  {
    var tb, tu := TokenBigrams(t), TokenUnigrams(t);
    assert bs + tb[..i + 1] == bs + tb[..i] + [t[i..i + 2]];
    assert us + tu[..i + 1] == us + tu[..i] + [t[i]];
    TableOfAppend(bs + tb[..i], t[i..i + 2]);
    TableOfAppend(us + tu[..i], t[i]);
  }

  /** Each counted token of length `n` adds exactly `n - 1` to the unigram total
      and `n - 1` to the bigram total. */
  lemma TokenAddsPositions(bs: seq<string>, us: seq<char>, t: string)
    ensures Total(TableOf(bs + TokenBigrams(t)), Any()) == Total(TableOf(bs), Any()) + Positions(t)
    ensures Total(TableOf(us + TokenUnigrams(t)), Any()) == Total(TableOf(us), Any()) + Positions(t)
  {
    TotalsGrow(bs, TokenBigrams(t));
    TotalsGrow(us, TokenUnigrams(t));
  }

  /** Counting `more` after `s` adds `|more|` to the total of the table. */
  lemma TotalsGrow<K(!new)>(s: seq<K>, more: seq<K>)
    ensures Total(TableOf(s + more), Any()) == Total(TableOf(s), Any()) + |more|
  {
    TotalOfTableOf(s, Any());
    TotalOfTableOf(s + more, Any());
    CountWhereAppend(s, more, Any());
    CountAny(more);
  }

  /** The loop over the tokens of one line. */
  method CountTokens(bigrams: CountTable<string>, unigrams: CountTable<char>, tokens: seq<string>,
                     ghost bs: seq<string>, ghost us: seq<char>)
    returns (bigrams': CountTable<string>, unigrams': CountTable<char>)
    requires bigrams == TableOf(bs) && unigrams == TableOf(us)
    ensures bigrams' == TableOf(bs + BigramStream(tokens))
    ensures unigrams' == TableOf(us + UnigramStream(tokens))
  {
    bigrams', unigrams' := bigrams, unigrams;
    var j := 0;
    assert bs + BigramStream(tokens[..0]) == bs && us + UnigramStream(tokens[..0]) == us;
    while j < |tokens|
      invariant 0 <= j <= |tokens|
      invariant bigrams' == TableOf(bs + BigramStream(tokens[..j]))
      invariant unigrams' == TableOf(us + UnigramStream(tokens[..j]))
    {
      NextToken(bs, us, tokens, j);
      bigrams', unigrams' := CountToken(bigrams', unigrams', tokens[j],
                                        bs + BigramStream(tokens[..j]), us + UnigramStream(tokens[..j]));
      j := j + 1;
    }
    assert tokens[..j] == tokens;
  }

  /** The loop over the lines `lines[lo:hi]`; a line without tokens is skipped, and
      with `Some(n)` only the first `n` tokens of a line are counted. */
  method CountWindow(lines: seq<string>, lo: nat, hi: nat, cap: Option<nat>)
    returns (bigrams: CountTable<string>, unigrams: CountTable<char>)
    ensures bigrams == TableOf(BigramStream(TokensOf(Slice(lines, lo, hi), cap)))
    ensures unigrams == TableOf(UnigramStream(TokensOf(Slice(lines, lo, hi), cap)))
  {
    var window := Slice(lines, lo, hi);
    bigrams, unigrams := CountTable([], map[]), CountTable([], map[]);
    ghost var bs: seq<string>, us: seq<char> := [], [];
    assert TableOf(bs) == bigrams && TableOf(us) == unigrams;
    var n := 0;
    while n < |window|
      invariant 0 <= n <= |window|
      invariant bs == BigramStream(TokensOf(window[..n], cap))
      invariant us == UnigramStream(TokensOf(window[..n], cap))
      invariant bigrams == TableOf(bs) && unigrams == TableOf(us)
    {
      var tokens := Preprocess(window[n]);
      ghost var used := Capped(tokens, cap);
      LineCounted(window, n, cap, bs, us, tokens);
      if |tokens| != 0 {
        var counted := Capped(tokens, cap);
        bigrams, unigrams := CountTokens(bigrams, unigrams, counted, bs, us);
      } else {
        LineSkipped(tokens, cap, bs, us);
      }
      bs, us := bs + BigramStream(used), us + UnigramStream(used);
      assert bigrams == TableOf(bs) && unigrams == TableOf(us);
      n := n + 1;
    }
    assert window[..n] == window;
  }

  /** `create_model` with the file read into `lines`: the bigram and unigram tables of
      the training window. The bigram table maps strings to counts, as it is evidently
      meant to; the nested `defaultdict` of line 18 would fail at the first `+= 1`. */
  method CreateModel(lines: seq<string>) returns (bigrams: CountTable<string>, unigrams: CountTable<char>)
    ensures bigrams == TableOf(BigramStream(TrainingTokens(lines)))
    ensures unigrams == TableOf(UnigramStream(TrainingTokens(lines)))
    ensures forall b :: b in bigrams.count ==> |b| == 2 && b[0] in unigrams.count
    ensures forall x :: unigrams.Get(x) == Total(bigrams, StartsWith(x))
    ensures Total(unigrams, Any()) == Total(bigrams, Any()) == TotalPositions(TrainingTokens(lines))
    ensures unigrams.Get(Boundary) == |TrainingTokens(lines)|
  {
    bigrams, unigrams := CountWindow(lines, TrainFrom, TrainTo, Some(TokensPerLine));
    TablesAgree(TrainingTokens(lines));
    WindowTokensAreTokens(Slice(lines, TrainFrom, TrainTo), Some(TokensPerLine));
    BoundaryCountsTokens(TrainingTokens(lines));
  }

  /** The first half of `predict` with the file read into `lines`: the tables of the
      test window. Only the unigram table is used afterwards. */
  method DocumentCounts(lines: seq<string>) returns (bigrams: CountTable<string>, unigrams: CountTable<char>)
    ensures bigrams == TableOf(BigramStream(TestTokens(lines)))
    ensures unigrams == TableOf(UnigramStream(TestTokens(lines)))
    ensures forall b :: b in bigrams.count ==> |b| == 2 && b[0] in unigrams.count
    ensures unigrams.Get(Boundary) == |TestTokens(lines)|
  {
    bigrams, unigrams := CountWindow(lines, TestFrom, TestTo, None);
    TablesAgree(TestTokens(lines));
    WindowTokensAreTokens(Slice(lines, TestFrom, TestTo), None);
    BoundaryCountsTokens(TestTokens(lines));
  }

  // ---------------------------------------------------------------------------
  // Properties of the token streams and of the tables counted from them

  lemma FlattenMapAppend<A, B>(f: A -> seq<B>, s: seq<A>, x: A)
    ensures Flatten(Map(f, s + [x])) == Flatten(Map(f, s)) + f(x)
  {
    assert Map(f, s + [x])[..|s|] == Map(f, s);
  }

  lemma FlattenMapConcat<A, B>(f: A -> seq<B>, a: seq<A>, b: seq<A>)
    ensures Flatten(Map(f, a + b)) == Flatten(Map(f, a)) + Flatten(Map(f, b))
  {
    assert Map(f, a + b) == Map(f, a) + Map(f, b);
    FlattenAppend(Map(f, a), Map(f, b));
  }

  lemma StreamsAppend(ts: seq<string>, t: string)
    ensures BigramStream(ts + [t]) == BigramStream(ts) + TokenBigrams(t)
    ensures UnigramStream(ts + [t]) == UnigramStream(ts) + TokenUnigrams(t)
    ensures TotalPositions(ts + [t]) == TotalPositions(ts) + Positions(t)
  {
    FlattenMapAppend(TokenBigrams, ts, t);
    FlattenMapAppend(TokenUnigrams, ts, t);
    assert (ts + [t])[..|ts|] == ts;
  }

  lemma StreamsConcat(a: seq<string>, b: seq<string>)
    ensures BigramStream(a + b) == BigramStream(a) + BigramStream(b)
    ensures UnigramStream(a + b) == UnigramStream(a) + UnigramStream(b)
  {
    FlattenMapConcat(TokenBigrams, a, b);
    FlattenMapConcat(TokenUnigrams, a, b);
  }

  /** Position by position, the unigram stream holds the first character of the
      bigram stream, and every bigram has two characters. */
  lemma {:induction false} StreamsAlign(ts: seq<string>)
    ensures |UnigramStream(ts)| == |BigramStream(ts)| == TotalPositions(ts)
    ensures forall i :: 0 <= i < |BigramStream(ts)| ==>
      |BigramStream(ts)[i]| == 2 && UnigramStream(ts)[i] == BigramStream(ts)[i][0]
    decreases |ts|
  {
    if ts != [] {
      var init, t := ts[..|ts| - 1], ts[|ts| - 1];
      assert ts == init + [t];
      StreamsAlign(init);
      StreamsAppend(init, t);
      var b0, u0 := BigramStream(init), UnigramStream(init);
      var b1, u1 := TokenBigrams(t), TokenUnigrams(t);
      assert BigramStream(ts) == b0 + b1;
      assert UnigramStream(ts) == u0 + u1;
      forall i | 0 <= i < |b0 + b1|
        ensures |(b0 + b1)[i]| == 2 && (u0 + u1)[i] == (b0 + b1)[i][0]
      {
        if i >= |b0| {
          assert (b0 + b1)[i] == b1[i - |b0|];
          assert (u0 + u1)[i] == u1[i - |b0|];
        } else {
          assert (b0 + b1)[i] == b0[i];
          assert (u0 + u1)[i] == u0[i];
        }
      }
    }
  }

  /** Counting first characters position by position gives, for each `x`, the
      number of bigrams that start with `x`. */
  lemma {:induction false} FirstCharacterCounts(u: seq<char>, b: seq<string>, x: char)
    requires |u| == |b|
    requires forall i :: 0 <= i < |b| ==> |b[i]| > 0 && u[i] == b[i][0]
    ensures multiset(u)[x] == CountWhere(b, StartsWith(x))
    decreases |u|
  {
    if u != [] {
      var n := |u| - 1;
      assert u == u[..n] + [u[n]];
      assert multiset(u) == multiset(u[..n]) + multiset{u[n]};
      FirstCharacterCounts(u[..n], b[..n], x);
    }
  }

  /** What the two tables of one build say about each other: every bigram key has
      two characters and its first character is a unigram key; the count of each
      unigram `x` is the sum of the counts of the bigrams starting with `x`; both
      tables add up to `len(token) - 1` summed over the counted tokens. */
  lemma TablesAgree(ts: seq<string>)
    ensures forall b :: b in TableOf(BigramStream(ts)).count ==> |b| == 2 && b[0] in TableOf(UnigramStream(ts)).count
    ensures forall x :: TableOf(UnigramStream(ts)).Get(x) == Total(TableOf(BigramStream(ts)), StartsWith(x))
    ensures Total(TableOf(UnigramStream(ts)), Any()) == Total(TableOf(BigramStream(ts)), Any()) == TotalPositions(ts)
  {
    StreamsAlign(ts);
    KeysAgree(UnigramStream(ts), BigramStream(ts));
    CountsAgree(UnigramStream(ts), BigramStream(ts));
    TotalsAgree(UnigramStream(ts), BigramStream(ts));
  }

  lemma KeysAgree(us: seq<char>, bs: seq<string>)
    requires |us| == |bs|
    requires forall i :: 0 <= i < |bs| ==> |bs[i]| == 2 && us[i] == bs[i][0]
    ensures forall b :: b in TableOf(bs).count ==> |b| == 2 && b[0] in TableOf(us).count
  {
    TableOfIsHistogram(bs);
    TableOfIsHistogram(us);
    forall b | b in TableOf(bs).count ensures |b| == 2 && b[0] in TableOf(us).count {
      assert b in bs;
      var i :| 0 <= i < |bs| && bs[i] == b;
      assert us[i] in us;
    }
  }

  lemma CountsAgree(us: seq<char>, bs: seq<string>)
    requires |us| == |bs|
    requires forall i :: 0 <= i < |bs| ==> |bs[i]| == 2 && us[i] == bs[i][0]
    ensures forall x :: TableOf(us).Get(x) == Total(TableOf(bs), StartsWith(x))
  {
    TableOfIsHistogram(us);
    forall x ensures TableOf(us).Get(x) == Total(TableOf(bs), StartsWith(x)) {
      FirstCharacterCounts(us, bs, x);
      TotalOfTableOf(bs, StartsWith(x));
    }
  }

  lemma TotalsAgree<A(!new), B(!new)>(us: seq<A>, bs: seq<B>)
    requires |us| == |bs|
    ensures Total(TableOf(us), Any()) == Total(TableOf(bs), Any()) == |bs|
  {
    TotalOfTableOf(bs, Any());
    TotalOfTableOf(us, Any());
    CountAny(bs);
    CountAny(us);
  }

  /** The boundary marker is counted once per token: the leading `$` is, the
      trailing one never is. */
  lemma OneBoundaryPerToken(t: string)
    requires IsToken(t)
    ensures multiset(TokenUnigrams(t))[Boundary] == 1
  {
    var u := TokenUnigrams(t);
    assert u == [t[0]] + u[1..];
    assert Boundary !in u[1..] by {
      forall i | 0 <= i < |u[1..]| ensures u[1..][i] != Boundary {
        assert u[1..][i] == t[i + 1];
      }
    }
    assert multiset(u) == multiset{t[0]} + multiset(u[1..]);
  }

  /** `unigrams['$']` is the number of tokens counted. */
  lemma {:induction false} BoundaryCountsTokens(ts: seq<string>)
    requires forall t :: t in ts ==> IsToken(t)
    ensures TableOf(UnigramStream(ts)).Get(Boundary) == |ts|
    decreases |ts|
  {
    TableOfIsHistogram(UnigramStream(ts));
    if ts == [] {
      assert UnigramStream(ts) == [];
    } else {
      var init, t := ts[..|ts| - 1], ts[|ts| - 1];
      assert ts == init + [t];
      assert forall s :: s in init ==> s in ts;
      BoundaryCountsTokens(init);
      TableOfIsHistogram(UnigramStream(init));
      OneBoundaryPerToken(t);
      StreamsAppend(init, t);
      assert multiset(UnigramStream(ts)) == multiset(UnigramStream(init)) + multiset(TokenUnigrams(t));
    }
  }

  lemma {:induction false} FlattenAppend<T>(a: seq<seq<T>>, b: seq<seq<T>>)
    ensures Flatten(a + b) == Flatten(a) + Flatten(b)
    decreases |b|
  {
    if b == [] {
      assert a + b == a;
      AppendNothing(Flatten(a));
    } else {
      var init, last := b[..|b| - 1], b[|b| - 1];
      var ab := a + b;
      assert ab[..|ab| - 1] == a + init && ab[|ab| - 1] == last;
      FlattenAppend(a, init);
      Associate(Flatten(a), Flatten(init), last);
    }
  }

  lemma Associate<T>(x: seq<T>, y: seq<T>, z: seq<T>)
    ensures (x + y) + z == x + (y + z)
  {
  }

  lemma TokensOfAppend(a: seq<string>, b: seq<string>, cap: Option<nat>)
    ensures TokensOf(a + b, cap) == TokensOf(a, cap) + TokensOf(b, cap)
  {
    PerLineAppend(a, b, cap);
    FlattenAppend(PerLine(a, cap), PerLine(b, cap));
  }

  lemma PerLineAppend(a: seq<string>, b: seq<string>, cap: Option<nat>)
    ensures PerLine(a + b, cap) == PerLine(a, cap) + PerLine(b, cap)
  {
    var ab := a + b;
    forall i | 0 <= i < |ab| ensures PerLine(ab, cap)[i] == (PerLine(a, cap) + PerLine(b, cap))[i] {
      if i < |a| {
        assert ab[i] == a[i];
      } else {
        assert ab[i] == b[i - |a|];
      }
    }
  }

  /** Counting the used part of the tokens of line `n` of the window extends both
      streams by their streams. */
  lemma LineCounted(window: seq<string>, n: nat, cap: Option<nat>, bs: seq<string>, us: seq<char>, tokens: seq<string>)
    requires n < |window| && tokens == Preprocess(window[n])
    requires bs == BigramStream(TokensOf(window[..n], cap))
    requires us == UnigramStream(TokensOf(window[..n], cap))
    ensures bs + BigramStream(Capped(tokens, cap)) == BigramStream(TokensOf(window[..n + 1], cap))
    ensures us + UnigramStream(Capped(tokens, cap)) == UnigramStream(TokensOf(window[..n + 1], cap))
  {
    TokensOfNext(window, n, cap);
    StreamsConcat(TokensOf(window[..n], cap), Capped(tokens, cap));
  }

  /** A line without tokens adds nothing to either stream. */
  lemma LineSkipped(tokens: seq<string>, cap: Option<nat>, bs: seq<string>, us: seq<char>)
    requires |tokens| == 0
    ensures bs + BigramStream(Capped(tokens, cap)) == bs
    ensures us + UnigramStream(Capped(tokens, cap)) == us
  {
    assert Capped(tokens, cap) == [];
    assert BigramStream([]) == [] && UnigramStream([]) == [];
    AppendNothing(bs);
    AppendNothing(us);
  }

  lemma AppendNothing<T>(s: seq<T>)
    ensures s + [] == s
  {
  }

  /** One more line contributes its tokens at the end. */
  lemma TokensOfNext(lines: seq<string>, n: nat, cap: Option<nat>)
    requires n < |lines|
    ensures TokensOf(lines[..n + 1], cap) == TokensOf(lines[..n], cap) + LineTokens(lines[n], cap)
  {
    assert lines[..n + 1] == lines[..n] + [lines[n]];
    TokensOfAppend(lines[..n], [lines[n]], cap);
    TokensOfLine(lines[n], cap);
  }

  lemma TokensOfLine(line: string, cap: Option<nat>)
    ensures TokensOf([line], cap) == LineTokens(line, cap)
  {
    assert PerLine([line], cap) == [LineTokens(line, cap)];
    FlattenSingle(LineTokens(line, cap));
  }

  lemma FlattenSingle<T>(xs: seq<T>)
    ensures Flatten([xs]) == xs
  {
    assert [xs][..0] == [];
    assert Flatten<T>([]) + xs == xs;
  }

  /** Every counted token, training or test, is `$`, letters, `$`; a training line
      contributes at most 50 of them, a prefix of its tokens. */
  lemma {:induction false} WindowTokensAreTokens(lines: seq<string>, cap: Option<nat>)
    ensures forall t :: t in TokensOf(lines, cap) ==> IsToken(t)
    decreases |lines|
  {
    if lines != [] {
      var n := |lines| - 1;
      var line := lines[n];
      WindowTokensAreTokens(lines[..n], cap);
      TokensOfNext(lines, n, cap);
      assert lines[..n + 1] == lines;
      PreprocessTokens(line);
      assert forall t :: t in LineTokens(line, cap) ==> t in Preprocess(line);
    }
  }

  lemma LineTokensCapped(line: string, n: nat)
    ensures |LineTokens(line, Some(n))| <= n
    ensures LineTokens(line, Some(n)) == Preprocess(line)[..|LineTokens(line, Some(n))|]
  {
  }

  /** A line that yields no token, wherever it stands, leaves the counted tokens,
      and so both tables, as they are. */
  lemma SkippedLineChangesNothing(before: seq<string>, line: string, after: seq<string>, cap: Option<nat>)
    requires Preprocess(line) == []
    ensures TokensOf(before + [line] + after, cap) == TokensOf(before + after, cap)
  {
    TokensOfAppend(before + [line], after, cap);
    TokensOfAppend(before, [line], cap);
    TokensOfAppend(before, after, cap);
    TokensOfLine(line, cap);
    assert LineTokens(line, cap) == [];
    assert TokensOf(before, cap) + [] == TokensOf(before, cap);
  }

  /** Training counts the lines at indices 500 to 599 and no other: any two files
      that agree there are counted alike. */
  lemma TrainingReadsOnlyItsWindow(lines: seq<string>, other: seq<string>)
    requires Slice(lines, TrainFrom, TrainTo) == Slice(other, TrainFrom, TrainTo)
    ensures TrainingTokens(lines) == TrainingTokens(other)
  {
  }

  lemma TrainingWindow(lines: seq<string>)
    ensures |lines| >= TrainTo ==> TrainingTokens(lines) == TokensOf(lines[TrainFrom..TrainTo], Some(TokensPerLine))
    ensures TrainFrom <= |lines| < TrainTo ==> TrainingTokens(lines) == TokensOf(lines[TrainFrom..], Some(TokensPerLine))
    ensures |lines| <= TrainFrom ==> TrainingTokens(lines) == []
  {
    if TrainFrom <= |lines| < TrainTo {
      assert lines[TrainFrom..] == lines[TrainFrom..|lines|];
    }
  }

  lemma TestWindow(lines: seq<string>)
    ensures |lines| >= TestTo ==> TestTokens(lines) == TokensOf(lines[TestFrom..TestTo], None)
    ensures TestFrom <= |lines| < TestTo ==> TestTokens(lines) == TokensOf(lines[TestFrom..], None)
    ensures |lines| <= TestFrom ==> TestTokens(lines) == []
  {
    if TestFrom <= |lines| < TestTo {
      assert lines[TestFrom..] == lines[TestFrom..|lines|];
    }
  }
}
