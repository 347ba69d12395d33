/** Token-set F1 and the accuracy count. Scores are exact rationals (`real`);
    ROUGE, cosine similarity and the averaging of the score lists are not
    modelled. */
module Evaluation {
  import opened Wrappers
  import opened Text

  /** Precision, recall and F1 of one prediction. */
  datatype Scores = Scores(precision: real, recall: real, f1: real)

  /** Token F1 at or above this counts a prediction as correct. */
  const CorrectThreshold: real := 0.6

  // ---------------------------------------------------------------------
  // Tokens: `set(re.findall(r'\w+', text.lower()))`
  // ---------------------------------------------------------------------

  /** Number of leading word characters. */
  function WordRun(s: string): (n: nat)
    ensures n <= |s|
    ensures forall i :: 0 <= i < n ==> IsWordChar(s[i])
    ensures n < |s| ==> !IsWordChar(s[n])
  {
    if s != [] && IsWordChar(s[0]) then 1 + WordRun(s[1..]) else 0
  }

  /** The maximal runs of word characters of `s`, left to right. */
  function Words(s: string): (r: seq<string>)
    ensures forall w :: w in r ==> w != [] && forall i :: 0 <= i < |w| ==> IsWordChar(w[i])
    decreases |s|
  {
    if s == [] then []
    else if !IsWordChar(s[0]) then Words(s[1..])
    else
      var n := WordRun(s);
      [s[..n]] + Words(s[n..])
  }

  /** A maximal run of word characters starts at `i`: a word character with
      no word character right before it. */
  predicate RunStart(s: string, i: nat) {
    i < |s| && IsWordChar(s[i]) && (i == 0 || !IsWordChar(s[i - 1]))
  }

  /** The run of word characters starting at `i`. */
  function RunAt(s: string, i: nat): string
    requires i <= |s|
  {
    s[i..i + WordRun(s[i..])]
  }

  /** Every maximal run of word characters of `s` is one of its words. */
  lemma {:induction false} WordsComplete(s: string, i: nat)
    requires RunStart(s, i)
    ensures RunAt(s, i) in Words(s)
    decreases |s|, 1
  {
    if !IsWordChar(s[0]) {
      WordsCompleteSkip(s, i);
    } else if i == 0 {
      assert s[0..] == s;
    } else {
      WordsCompleteLater(s, i);
    }
  }

  lemma {:induction false} WordsCompleteSkip(s: string, i: nat)
    requires RunStart(s, i) && !IsWordChar(s[0])
    ensures RunAt(s, i) in Words(s)
    decreases |s|, 0
  {
    assert Words(s) == Words(s[1..]);
    RunShift(s, 1, i - 1);
    WordsComplete(s[1..], i - 1);
  }

  lemma {:induction false} WordsCompleteLater(s: string, i: nat)
    requires RunStart(s, i) && IsWordChar(s[0]) && i != 0
    ensures RunAt(s, i) in Words(s)
    decreases |s|, 0
  {
    var n := WordRun(s);
    assert !IsWordChar(s[i - 1]);
    assert i > n;
    RunShift(s, n, i - n);
    WordsComplete(s[n..], i - n);
    var rest := Words(s[n..]);
    assert RunAt(s, i) in rest;
    assert Words(s) == [s[..n]] + rest;
  }

  /** Every word of `s` is a maximal run of word characters of `s`. */
  lemma {:induction false} WordsSound(s: string, w: string)
    requires w in Words(s)
    ensures exists i: nat :: RunStart(s, i) && w == RunAt(s, i)
    decreases |s|, 1
  {
    if !IsWordChar(s[0]) {
      WordsSoundSkip(s, w);
    } else if w == s[..WordRun(s)] {
      assert s[0..] == s;
      assert RunStart(s, 0) && w == RunAt(s, 0);
    } else {
      WordsSoundLater(s, w);
    }
  }

  lemma {:induction false} WordsSoundSkip(s: string, w: string)
    requires w in Words(s) && !IsWordChar(s[0])
    ensures exists i: nat :: RunStart(s, i) && w == RunAt(s, i)
    decreases |s|, 0
  {
    WordsSound(s[1..], w);
    var j: nat :| RunStart(s[1..], j) && w == RunAt(s[1..], j);
    RunShift(s, 1, j);
  }

  lemma {:induction false} WordsSoundLater(s: string, w: string)
    requires w in Words(s) && IsWordChar(s[0]) && w != s[..WordRun(s)]
    ensures exists i: nat :: RunStart(s, i) && w == RunAt(s, i)
    decreases |s|, 0
  {
    var n := WordRun(s);
    assert Words(s) == [s[..n]] + Words(s[n..]);
    WordsSound(s[n..], w);
    var j: nat :| RunStart(s[n..], j) && w == RunAt(s[n..], j);
    assert j != 0;
    RunShift(s, n, j);
  }

  /** Runs seen from an offset `d` are runs of the whole text, unless a
      word character right before the offset extends the run at `d`. */
  lemma RunShift(s: string, d: nat, j: nat)
    requires d + j < |s|
    requires d > 0 && j == 0 ==> !IsWordChar(s[d - 1])
    ensures RunStart(s[d..], j) <==> RunStart(s, d + j)
    ensures RunAt(s[d..], j) == RunAt(s, d + j)
  {
    assert s[d..][j..] == s[d + j..];
  }

  /** Word runs depend only on which characters are word characters. */
  lemma {:induction false} WordRunSameClasses(s: string, t: string)
    requires |s| == |t|
    requires forall i :: 0 <= i < |s| ==> IsWordChar(s[i]) == IsWordChar(t[i])
    ensures WordRun(s) == WordRun(t)
    decreases |s|
  {
    if s != [] && IsWordChar(s[0]) {
      WordRunSameClasses(s[1..], t[1..]);
    }
  }

  /** Lowercasing keeps the runs where they are and lowercases each. */
  lemma LowerRun(text: string, i: nat)
    requires i <= |text|
    ensures RunStart(Lower(text), i) == RunStart(text, i)
    ensures RunAt(Lower(text), i) == Lower(RunAt(text, i))
  {
    var l := Lower(text);
    assert l[i..] == Lower(text[i..]);
    WordRunSameClasses(l[i..], text[i..]);
  }

  /** `w` is the lowercased form of a maximal run of word characters of
      `text`. */
  ghost predicate IsToken(text: string, w: string) {
    exists i: nat :: RunStart(text, i) && w == Lower(RunAt(text, i))
  }

  /** `tokenize`: the set of words of the lowercased text, that is, the
      lowercased maximal runs of word characters of the text, all of them
      and nothing else. */
  function Tokenize(text: string): (r: set<string>)
    ensures forall w :: w in r <==> IsToken(text, w)
  {
    var l := Lower(text);
    assert forall w :: w in Words(l) <==> IsToken(text, w) by {
      forall w | w in Words(l)
        ensures IsToken(text, w)
      {
        WordsSound(l, w);
        var i: nat :| RunStart(l, i) && w == RunAt(l, i);
        LowerRun(text, i);
      }
      forall w, i: nat | RunStart(text, i) && w == Lower(RunAt(text, i))
        ensures w in Words(l)
      {
        LowerRun(text, i);
        WordsComplete(l, i);
      }
    }
    set w | w in Words(l)
  }

  /** Tokens are non-empty runs of word characters with no upper-case
      letter, so spelling differences in case give the same token. */
  lemma TokensAreLowerWords(text: string)
    ensures forall w :: w in Tokenize(text) ==>
      w != [] && forall i :: 0 <= i < |w| ==> IsWordChar(w[i]) && !IsUpper(w[i])
  {
    forall w, i | w in Tokenize(text) && 0 <= i < |w|
      ensures !IsUpper(w[i])
    {
      var l := Lower(text);
      assert w[i] in l;
      var k :| 0 <= k < |l| && l[k] == w[i];
    }
  }

  /** Case does not matter: a text and its lowercase form have the same
      tokens. */
  lemma TokenizeIgnoresCase(text: string)
    ensures Tokenize(Lower(text)) == Tokenize(text)
  {
    assert Lower(Lower(text)) == Lower(text);
  }

  /** Text with no word character, such as the empty prediction, has no
      tokens. */
  lemma {:induction false} NoWordsNoTokens(s: string)
    requires forall i :: 0 <= i < |s| ==> !IsWordChar(s[i])
    ensures Words(s) == []
    decreases |s|
  {
    if s != [] {
      NoWordsNoTokens(s[1..]);
    }
  }

  // ---------------------------------------------------------------------
  // Token F1: `compute_token_f1`
  // ---------------------------------------------------------------------

  lemma RatioBounds(x: real, y: real)
    requires 0.0 <= x <= y && 0.0 < y
    ensures 0.0 <= x / y <= 1.0
    ensures 0.0 < x ==> 0.0 < x / y
  {
    var q := x / y;
    assert q * y == x;
  }

  lemma HarmonicMeanBounds(p: real, r: real)
    requires 0.0 < p <= 1.0 && 0.0 < r <= 1.0
    ensures 0.0 < 2.0 * p * r / (p + r) <= 1.0
  {
    var pr := p * r;
    assert pr <= p by { assert p * r <= p * 1.0; }
    assert pr <= r by { assert p * r <= 1.0 * r; }
    assert 0.0 < pr;
    assert 2.0 * p * r == pr + pr;
    RatioBounds(2.0 * p * r, p + r);
  }

  lemma SubsetCard<T>(a: set<T>, b: set<T>)
    requires a <= b
    ensures |a| <= |b|
  {
    assert b == a + (b - a);
  }

  /** Precision, recall and F1 of predicted tokens against reference tokens.
      Without common tokens all three are zero; otherwise precision and
      recall are the shares of the common tokens in the prediction and in the
      reference, both in (0, 1], and F1 their harmonic mean, also in (0, 1]. */
  function SetScores(refTokens: set<string>, predTokens: set<string>): (s: Scores)
    ensures refTokens * predTokens == {} ==> s == Scores(0.0, 0.0, 0.0)
    ensures refTokens * predTokens != {} ==>
      && s.precision == |refTokens * predTokens| as real / |predTokens| as real
      && s.recall == |refTokens * predTokens| as real / |refTokens| as real
      && 0.0 < s.precision <= 1.0 && 0.0 < s.recall <= 1.0 && 0.0 < s.f1 <= 1.0
      && s.f1 == 2.0 * s.precision * s.recall / (s.precision + s.recall)
    ensures 0.0 <= s.f1 <= 1.0
  {
    var common := refTokens * predTokens;
    if common == {} then Scores(0.0, 0.0, 0.0)
    else
      SubsetCard(common, predTokens);
      SubsetCard(common, refTokens);
      var c, np, nr := |common| as real, |predTokens| as real, |refTokens| as real;
      RatioBounds(c, np);
      RatioBounds(c, nr);
      var precision := if |predTokens| > 0 then c / np else 0.0;
      var recall := if |refTokens| > 0 then c / nr else 0.0;
      HarmonicMeanBounds(precision, recall);
      var f1 := if precision + recall != 0.0 then 2.0 * precision * recall / (precision + recall) else 0.0;
      Scores(precision, recall, f1)
  }

  /** `compute_token_f1`: F1 is positive exactly when the two texts share a
      token, and never above 1. */
  function TokenF1(reference: string, prediction: string): (s: Scores)
    ensures 0.0 < s.f1 <==> Tokenize(reference) * Tokenize(prediction) != {}
    ensures s.f1 <= 1.0
  {
    SetScores(Tokenize(reference), Tokenize(prediction))
  }

  /** Swapping reference and prediction swaps precision and recall and keeps
      F1. */
  lemma TokenF1Symmetric(reference: string, prediction: string)
    ensures TokenF1(prediction, reference).precision == TokenF1(reference, prediction).recall
    ensures TokenF1(prediction, reference).recall == TokenF1(reference, prediction).precision
    ensures TokenF1(prediction, reference).f1 == TokenF1(reference, prediction).f1
  {
    SetScoresSymmetric(Tokenize(reference), Tokenize(prediction));
  }

  lemma SetScoresSymmetric(a: set<string>, b: set<string>)
    ensures SetScores(b, a).precision == SetScores(a, b).recall
    ensures SetScores(b, a).recall == SetScores(a, b).precision
    ensures SetScores(b, a).f1 == SetScores(a, b).f1
  {
    assert a * b == b * a;
    var s := SetScores(a, b);
    assert s.precision * s.recall == s.recall * s.precision;
  }

  /** Identical non-empty token sets score (1, 1, 1). */
  lemma TokenF1Identical(reference: string, prediction: string)
    requires Tokenize(reference) == Tokenize(prediction) != {}
    ensures TokenF1(reference, prediction) == Scores(1.0, 1.0, 1.0)
  {
    SetScoresIdentical(Tokenize(reference));
  }

  lemma SetScoresIdentical(a: set<string>)
    requires a != {}
    ensures SetScores(a, a) == Scores(1.0, 1.0, 1.0)
  {
    assert a * a == a;
  }

  // ---------------------------------------------------------------------
  // Accuracy: the counting loop of `evaluate_predictions`
  // ---------------------------------------------------------------------

  /** Number of scores at or above the correctness threshold. */
  function CountCorrect(f1s: seq<real>): (n: nat)
    ensures n <= |f1s|
  {
    if f1s == [] then 0
    else CountCorrect(f1s[..|f1s| - 1]) + (if f1s[|f1s| - 1] >= CorrectThreshold then 1 else 0)
  }

  lemma CountCorrectSnoc(f1s: seq<real>, x: real)
    ensures CountCorrect(f1s + [x]) == CountCorrect(f1s) + (if x >= CorrectThreshold then 1 else 0)
  {
    assert (f1s + [x])[..|f1s|] == f1s;
  }

  /** `predictions.get(question, "")`. */
  function Predicted(predictions: map<string, string>, question: string): string {
    if question in predictions then predictions[question] else ""
  }

  /** The token F1 of one ground-truth entry: both sides stripped, a
      missing prediction read as the empty string. */
  function EntryF1(entry: (string, string), predictions: map<string, string>): real {
    TokenF1(Strip(entry.1), Strip(Predicted(predictions, entry.0))).f1
  }

  /** A question with no prediction is scored against the empty string: F1
      zero, so it is never counted correct. */
  lemma MissingPredictionScoresZero(question: string, reference: string, predictions: map<string, string>)
    requires question !in predictions
    ensures EntryF1((question, reference), predictions) == 0.0 < CorrectThreshold
  {
    NoWordsNoTokens(Lower(Strip("")));
    assert Tokenize(Strip("")) == {};
  }

  /** The token F1 of each entry, in order. */
  function EntryScores(entries: seq<(string, string)>, predictions: map<string, string>): (r: seq<real>)
    ensures |r| == |entries|
  {
    if entries == [] then []
    else EntryScores(entries[..|entries| - 1], predictions) + [EntryF1(entries[|entries| - 1], predictions)]
  }

  lemma {:induction false} EntryScoresIndex(entries: seq<(string, string)>, predictions: map<string, string>, i: nat)
    requires i < |entries|
    ensures EntryScores(entries, predictions)[i] == EntryF1(entries[i], predictions)
  {
    if i < |entries| - 1 {
      EntryScoresIndex(entries[..|entries| - 1], predictions, i);
    }
  }

  lemma EntryScoresSnoc(entries: seq<(string, string)>, predictions: map<string, string>, i: nat)
    requires i < |entries|
    ensures EntryScores(entries[..i + 1], predictions)
      == EntryScores(entries[..i], predictions) + [EntryF1(entries[i], predictions)]
  {
    assert entries[..i + 1][..i] == entries[..i];
  }

  /** `correct_count / total if total > 0 else 0`: the share of correct
      answers, a value in [0, 1]. */
  function Accuracy(correct: nat, total: nat): (a: real)
    requires correct <= total
    ensures 0.0 <= a <= 1.0
    ensures total == 0 ==> a == 0.0
    ensures total > 0 ==> a * total as real == correct as real
    ensures a == 1.0 <==> 0 < total == correct
  {
    if total > 0 then
      RatioBounds(correct as real, total as real);
      correct as real / total as real
    else 0.0
  }

  /** The per-question token F1 list, the number counted correct and the
      accuracy: correct over total, zero without questions, always in
      [0, 1]. The ground truth is given as its (question, reference) entries
      in insertion order. */
  method EvaluateAccuracy(groundTruth: seq<(string, string)>, predictions: map<string, string>)
    returns (f1s: seq<real>, correctCount: nat, accuracy: real)
    ensures |f1s| == |groundTruth|
    ensures f1s == EntryScores(groundTruth, predictions)
    ensures correctCount == CountCorrect(f1s) <= |groundTruth|
    ensures accuracy == Accuracy(correctCount, |groundTruth|)
  {
    f1s := [];
    correctCount := 0;
    for i := 0 to |groundTruth|
      invariant f1s == EntryScores(groundTruth[..i], predictions)
      invariant correctCount == CountCorrect(f1s)
    {
      var tokenF1 := EntryF1(groundTruth[i], predictions);
      EntryScoresSnoc(groundTruth, predictions, i);
      CountCorrectSnoc(f1s, tokenF1);
      f1s := f1s + [tokenF1];
      if tokenF1 >= CorrectThreshold {
        correctCount := correctCount + 1;
      }
    }
    assert groundTruth[..|groundTruth|] == groundTruth;
    accuracy := Accuracy(correctCount, |groundTruth|);
  }
}
