/** `calculate_probability` and the decision at the end of `predict` in
    language_detector.py.

    The score itself is a sum of `math.log(count / x_count)` over the model's
    bigrams. Floating point and the logarithm are not modelled: the caller supplies
    `logRatio`, a partial function defined exactly where the logarithm is (both
    arguments at least 1), and the model proves that every call stays in that domain
    and that the score is the left-to-right sum of `logRatio` over the smoothed pairs. */
module Scoring {

  import opened Tables
  import opened Counting
  import opened Tokenizer

  datatype Language = English | Spanish

  /** The bigrams a model lists can all be indexed at 0. */
  predicate Indexable(bigrams: seq<string>) {
    forall i :: 0 <= i < |bigrams| ==> |bigrams[i]| > 0
  }

  /** What `calculate_probability` needs of a model's bigram table: a dict whose keys
      can be indexed at 0 and whose counts are not negative. The bigram table
      `create_model` is meant to return is one (`TrainedModelIsWellFormed`). */
  ghost predicate WellFormedModel(model: CountTable<string>) {
    model.Valid() && NonNegative(model) && Indexable(model.order)
  }

  /** `logRatio(n, d)` stands for `math.log(n / d)`; it may be called whenever both
      arguments are at least 1. */
  ghost predicate LogDomain(logRatio: (int, int) --> real) {
    forall n: int, d: int :: n >= 1 && d >= 1 ==> logRatio.requires(n, d)
  }

  /** The smoothed pair of one model entry: `count + 1` over `unigrams[bigram[0]] + 1`. */
  function Term(bigram: string, count: int, unigrams: CountTable<char>): (int, int)
    requires |bigram| > 0
  {
    (count + 1, unigrams.Get(bigram[0]) + 1)
  }

  /** The pairs `calculate_probability` takes the logarithm of, in the order the
      model's items are visited. Both parts of every pair are at least 1 when the
      counts are not negative. */
  function Terms(model: CountTable<string>, unigrams: CountTable<char>): (r: seq<(int, int)>)
    requires Indexable(model.order)
    ensures |r| == |model.order|
    ensures NonNegative(model) && NonNegative(unigrams) ==>
      forall i :: 0 <= i < |r| ==> r[i].0 >= 1 && r[i].1 >= 1
  {
    seq(|model.order|, i requires 0 <= i < |model.order| =>
      Term(model.order[i], model.Get(model.order[i]), unigrams))
  }

  /** `logRatio` can be applied to every pair. */
  ghost predicate Scorable(terms: seq<(int, int)>, logRatio: (int, int) --> real) {
    forall i :: 0 <= i < |terms| ==> logRatio.requires(terms[i].0, terms[i].1)
  }

  /** The value of `probability` after the first `n` items: `logRatio` summed over
      the first `n` pairs, from first to last, starting from 0. */
  function PartialScore(terms: seq<(int, int)>, n: nat, logRatio: (int, int) --> real): real
    requires n <= |terms| && Scorable(terms, logRatio)
  {
    if n == 0 then 0.0
    else PartialScore(terms, n - 1, logRatio) + logRatio(terms[n - 1].0, terms[n - 1].1)
  }

  /** The value `calculate_probability` returns. */
  function Score(terms: seq<(int, int)>, logRatio: (int, int) --> real): real
    requires Scorable(terms, logRatio)
  {
    PartialScore(terms, |terms|, logRatio)
  }

  /** `unigrams` after the lookups `unigrams[bigram[0]]` for the first `n` listed
      bigrams: each lookup of a missing character inserts it with count 0, so every
      count reads as before. */
  function TouchAll(unigrams: CountTable<char>, bigrams: seq<string>, n: nat): (r: CountTable<char>)
    requires n <= |bigrams| && Indexable(bigrams)
    ensures forall x :: r.Get(x) == unigrams.Get(x)
  {
    if n == 0 then unigrams else TouchAll(unigrams, bigrams, n - 1).Touch(bigrams[n - 1][0])
  }

  /** The lookups insert exactly the first characters of the looked-up bigrams, each
      with count 0, and keep the table a well-formed dict. */
  lemma TouchAllInserts(unigrams: CountTable<char>, bigrams: seq<string>, n: nat)
    requires n <= |bigrams| && Indexable(bigrams)
    ensures unigrams.Valid() ==> TouchAll(unigrams, bigrams, n).Valid()
    ensures TouchAll(unigrams, bigrams, n).count.Keys == unigrams.count.Keys + FirstChars(bigrams, n)
    ensures forall x :: x in TouchAll(unigrams, bigrams, n).count && x !in unigrams.count ==>
      TouchAll(unigrams, bigrams, n).count[x] == 0
    ensures NonNegative(unigrams) ==> NonNegative(TouchAll(unigrams, bigrams, n))
  {
    TouchAllValid(unigrams, bigrams, n);
    TouchAllKeys(unigrams, bigrams, n);
    var r := TouchAll(unigrams, bigrams, n);
    forall x | x in r.count ensures r.count[x] == r.Get(x) {
    }
  }

  lemma {:induction false} TouchAllValid(unigrams: CountTable<char>, bigrams: seq<string>, n: nat)
    requires n <= |bigrams| && Indexable(bigrams)
    ensures unigrams.Valid() ==> TouchAll(unigrams, bigrams, n).Valid()
  {
    if n > 0 {
      TouchAllValid(unigrams, bigrams, n - 1);
    }
  }

  lemma {:induction false} TouchAllKeys(unigrams: CountTable<char>, bigrams: seq<string>, n: nat)
    requires n <= |bigrams| && Indexable(bigrams)
    ensures TouchAll(unigrams, bigrams, n).count.Keys == unigrams.count.Keys + FirstChars(bigrams, n)
  {
    if n > 0 {
      TouchAllKeys(unigrams, bigrams, n - 1);
      TouchKeys(TouchAll(unigrams, bigrams, n - 1), bigrams[n - 1][0]);
      FirstCharsStep(bigrams, n);
      UnionRegroup(unigrams.count.Keys, FirstChars(bigrams, n - 1), bigrams[n - 1][0]);
    }
  }

  /** The first characters of the first `n` bigrams. */
  ghost function FirstChars(bigrams: seq<string>, n: nat): set<char>
    requires n <= |bigrams| && Indexable(bigrams)
  {
    set i | 0 <= i < n :: bigrams[i][0]
  }

  lemma FirstCharsStep(bigrams: seq<string>, n: nat)
    requires 0 < n <= |bigrams| && Indexable(bigrams)
    ensures FirstChars(bigrams, n) == FirstChars(bigrams, n - 1) + {bigrams[n - 1][0]}
  {
  }

  lemma UnionRegroup(a: set<char>, b: set<char>, c: char)
    ensures (a + b) + {c} == a + (b + {c})
  {
  }

  /** The loop of `calculate_probability`. For every item of the model, in order, the
      count is smoothed to `count + 1`, the first character's unigram count is looked
      up (inserting it with 0 when missing) and smoothed to `unigrams[x] + 1`, and
      `logRatio` of the pair is added to `probability`. */
  method CalculateProbability(model: CountTable<string>, unigrams: CountTable<char>,
                              logRatio: (int, int) --> real)
    returns (probability: real, unigrams': CountTable<char>)
    requires WellFormedModel(model)
    requires NonNegative(unigrams)
    requires LogDomain(logRatio)
    ensures probability == Score(Terms(model, unigrams), logRatio)
    ensures unigrams' == TouchAll(unigrams, model.order, |model.order|)
  {
    probability, unigrams' := 0.0, unigrams;
    var i := 0;
    while i < |model.order|
      invariant 0 <= i <= |model.order|
      invariant Scorable(Terms(model, unigrams), logRatio)
      invariant probability == PartialScore(Terms(model, unigrams), i, logRatio)
      invariant unigrams' == TouchAll(unigrams, model.order, i)
    {
      ScoreStep(model, unigrams, unigrams', i, logRatio);
      var bigram := model.order[i];
      var count := model.count[bigram];
      count := count + 1;
      var x := bigram[0];
      var xCount := unigrams'.Get(x) + 1;
      unigrams' := unigrams'.Touch(x);
      probability := probability + logRatio(count, xCount);
      i := i + 1;
    }
  }

  /** Item `i` of the model adds the `logRatio` of its pair to the score and looks
      up its first character. */
  lemma ScoreStep(model: CountTable<string>, unigrams: CountTable<char>, touched: CountTable<char>, i: nat,
                  logRatio: (int, int) --> real)
    requires WellFormedModel(model) && NonNegative(unigrams) && LogDomain(logRatio)
    requires i < |model.order| && touched == TouchAll(unigrams, model.order, i)
    ensures model.order[i] in model.count
    ensures Scorable(Terms(model, unigrams), logRatio)
    ensures logRatio.requires(model.count[model.order[i]] + 1, touched.Get(model.order[i][0]) + 1)
    ensures PartialScore(Terms(model, unigrams), i + 1, logRatio)
      == PartialScore(Terms(model, unigrams), i, logRatio)
         + logRatio(model.count[model.order[i]] + 1, touched.Get(model.order[i][0]) + 1)
    ensures touched.Touch(model.order[i][0]) == TouchAll(unigrams, model.order, i + 1)
  {
    assert model.order[i] in model.order;
  }

  /** `'English' if english_prob < spanish_prob else 'Spanish'`. */
  function Verdict(englishProb: real, spanishProb: real): Language {
    if englishProb < spanishProb then English else Spanish
  }

  /** `predict` for one document given as its lines: count the document's unigrams
      over lines `[20:500]`, score it against both models with the same unigram
      table (the English call's insertions are visible to the Spanish call) and
      compare. The verdict is English exactly when the English score is strictly
      below the Spanish one, and both scores are those of the document's counted
      unigrams. Each model is its bigram table: `create_model` returns the pair
      `(bigrams, unigrams)` at line 30, and only the bigram table is what line 56
      iterates over. */
  method Predict(lines: seq<string>, modelEn: CountTable<string>, modelEs: CountTable<string>,
                 logRatio: (int, int) --> real)
    returns (prediction: Language)
    requires WellFormedModel(modelEn) && WellFormedModel(modelEs)
    requires LogDomain(logRatio)
    ensures var u := TableOf(UnigramStream(TestTokens(lines)));
      prediction == English <==> Score(Terms(modelEn, u), logRatio) < Score(Terms(modelEs, u), logRatio)
  {
    var bigrams, unigrams := DocumentCounts(lines);
    TableOfIsHistogram(UnigramStream(TestTokens(lines)));
    var englishProb, touched := CalculateProbability(modelEn, unigrams, logRatio);
    TouchAllInserts(unigrams, modelEn.order, |modelEn.order|);
    var spanishProb, _ := CalculateProbability(modelEs, touched, logRatio);
    TermsIgnoreTouches(modelEs, unigrams, touched);
    prediction := Verdict(englishProb, spanishProb);
  }

  // ---------------------------------------------------------------------------
  // Properties

  /** The model `create_model` is meant to return, the bigram table of its counted
      tokens, can be scored. */
  lemma TrainedModelIsWellFormed(lines: seq<string>)
    ensures WellFormedModel(TableOf(BigramStream(TrainingTokens(lines))))
  {
    var bs := BigramStream(TrainingTokens(lines));
    TableOfIsHistogram(bs);
    StreamsAlign(TrainingTokens(lines));
    forall j | 0 <= j < |TableOf(bs).order| ensures |TableOf(bs).order[j]| > 0 {
      var b := TableOf(bs).order[j];
      assert b in TableOf(bs).order;
      var i :| 0 <= i < |bs| && bs[i] == b;
    }
  }

  /** Lookups only insert zeros, so the pairs a second model sees are the ones it
      would have seen on the table before the lookups. */
  lemma TermsIgnoreTouches(model: CountTable<string>, unigrams: CountTable<char>, touched: CountTable<char>)
    requires Indexable(model.order)
    requires forall x :: touched.Get(x) == unigrams.Get(x)
    ensures Terms(model, touched) == Terms(model, unigrams)
  {
  }

  /** A first character missing from the unigram table gets the denominator 1, and
      the lookup leaves it in the table with count 0. */
  lemma MissingCharacter(model: CountTable<string>, unigrams: CountTable<char>, i: nat)
    requires Indexable(model.order)
    requires i < |model.order| && model.order[i][0] !in unigrams.count
    ensures Terms(model, unigrams)[i].1 == 1
    ensures var touched := TouchAll(unigrams, model.order, |model.order|);
      model.order[i][0] in touched.count && touched.count[model.order[i][0]] == 0
  {
    TouchAllInserts(unigrams, model.order, |model.order|);
  }

  /** Every entry of a trained model was counted at least once, so every numerator
      is at least 2. */
  lemma TrainedNumerators(lines: seq<string>, unigrams: CountTable<char>)
    ensures var model := TableOf(BigramStream(TrainingTokens(lines)));
      WellFormedModel(model) &&
      forall i :: 0 <= i < |model.order| ==> Terms(model, unigrams)[i].0 >= 2
  {
    var model := TableOf(BigramStream(TrainingTokens(lines)));
    TrainedModelIsWellFormed(lines);
    TableOfIsHistogram(BigramStream(TrainingTokens(lines)));
    forall i | 0 <= i < |model.order| ensures Terms(model, unigrams)[i].0 >= 2 {
      assert model.order[i] in model.order;
    }
  }

  // The three laws below are about the exact-real sum `Score`, not about the
  // floating-point accumulation of language_detector.py:62, whose additions round
  // and so are not associative.

  /** The score of the first `n` pairs depends on those pairs only. */
  lemma {:induction false} PartialScorePrefix(s: seq<(int, int)>, t: seq<(int, int)>, n: nat, logRatio: (int, int) --> real)
    requires n <= |s| && n <= |t| && s[..n] == t[..n]
    requires Scorable(s, logRatio) && Scorable(t, logRatio)
    ensures PartialScore(s, n, logRatio) == PartialScore(t, n, logRatio)
  {
    if n > 0 {
      assert s[..n - 1] == s[..n][..n - 1] && t[..n - 1] == t[..n][..n - 1];
      assert s[n - 1] == s[..n][n - 1] && t[n - 1] == t[..n][n - 1];
      PartialScorePrefix(s, t, n - 1, logRatio);
    }
  }

  lemma {:induction false} PartialScoreAppend(a: seq<(int, int)>, b: seq<(int, int)>, k: nat, logRatio: (int, int) --> real)
    requires k <= |b| && Scorable(a, logRatio) && Scorable(b, logRatio) && Scorable(a + b, logRatio)
    ensures PartialScore(a + b, |a| + k, logRatio) == Score(a, logRatio) + PartialScore(b, k, logRatio)
  {
    if k == 0 {
      assert (a + b)[..|a|] == a[..|a|];
      PartialScorePrefix(a + b, a, |a|, logRatio);
    } else {
      PartialScoreAppend(a, b, k - 1, logRatio);
      assert (a + b)[|a| + k - 1] == b[k - 1];
    }
  }

  /** The score of a concatenation is the sum of the scores (over exact reals). */
  lemma ScoreAppend(a: seq<(int, int)>, b: seq<(int, int)>, logRatio: (int, int) --> real)
    requires Scorable(a, logRatio) && Scorable(b, logRatio)
    ensures Scorable(a + b, logRatio)
    ensures Score(a + b, logRatio) == Score(a, logRatio) + Score(b, logRatio)
  {
    assert forall i :: 0 <= i < |a + b| ==> (a + b)[i] == if i < |a| then a[i] else b[i - |a|];
    PartialScoreAppend(a, b, |b|, logRatio);
  }

  /** Equal scores go to Spanish. */
  lemma TieGoesToSpanish(score: real)
    ensures Verdict(score, score) == Spanish
  {
  }

  /** Exchanging the two scores exchanges the verdict, unless they are equal. */
  lemma VerdictSwaps(englishProb: real, spanishProb: real)
    requires englishProb != spanishProb
    ensures Verdict(englishProb, spanishProb) != Verdict(spanishProb, englishProb)
  {
  }

  /** A model with one entry `"$a"` of count 0 scored against an empty unigram table
      gives the single pair `(1, 1)`. */
  lemma SingleUnseenEntry(model: CountTable<string>, unigrams: CountTable<char>)
    requires model == CountTable(["$a"], map["$a" := 0])
    requires unigrams == CountTable([], map[])
    ensures Terms(model, unigrams) == [(1, 1)]
    ensures TouchAll(unigrams, model.order, 1) == CountTable(['$'], map['$' := 0])
  {
    assert model.order == ["$a"];
  }
}
