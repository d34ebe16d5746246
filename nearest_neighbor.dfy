// NearestNeighborSemanticParser: for each test question, the gold logical
// form of the training example whose word set has the highest Jaccard
// similarity with the question's (the earliest one on ties).
module NearestNeighbor {
  import opened Data
  import opened SeqUtil

  /** `frozenset(tokens)` */
  function TokenSet(toks: seq<string>): (words: set<string>)
    ensures forall t :: t in words <==> t in toks
    ensures |words| <= |toks|
  {
    var words := set t | t in toks;
    TokenSetSize(toks);
    words
  }

  /** A sequence has at most as many distinct elements as positions. */
  lemma {:induction false} TokenSetSize(toks: seq<string>)
    ensures |set t | t in toks| <= |toks|
    decreases |toks|
  {
    if |toks| > 0 {
      var rest := toks[1..];
      TokenSetSize(rest);
      assert (set t | t in toks) == (set t | t in rest) + {toks[0]};
    }
  }

  /** |a ∩ b| / |a ∪ b|, exactly as a rational. The source divides unguarded, so the union must not be empty. */
  function Jaccard(a: set<string>, b: set<string>): (j: real)
    requires a + b != {}
    ensures 0.0 <= j <= 1.0
  {
    SubsetCard(a * b, a + b);
    RatioInUnit(|a * b| as real, |a + b| as real);
    (|a * b| as real) / (|a + b| as real)
  }

  /** A ratio of a non-negative part to a positive whole lies in [0, 1]. */
  lemma RatioInUnit(part: real, whole: real)
    requires 0.0 <= part <= whole && whole > 0.0
    ensures 0.0 <= part / whole <= 1.0
  {}

  lemma SubsetCard(s: set<string>, t: set<string>)
    requires s <= t
    ensures |s| <= |t|
    ensures |s| == |t| ==> s == t
  {
    assert t == s + (t - s);
    assert |t| == |s| + |t - s|;
    if |s| == |t| {
      assert t - s == {};
    }
  }

  lemma JaccardSymmetric(a: set<string>, b: set<string>)
    requires a + b != {}
    ensures Jaccard(a, b) == Jaccard(b, a)
  {
    assert a * b == b * a;
    assert a + b == b + a;
  }

  /** The similarity is 1 exactly when the two word sets are the same. */
  lemma JaccardOneIff(a: set<string>, b: set<string>)
    requires a + b != {}
    ensures Jaccard(a, b) == 1.0 <==> a == b
  {
    var i := |a * b| as real;
    var u := |a + b| as real;
    SubsetCard(a * b, a + b);
    assert u > 0.0;
    assert Jaccard(a, b) == i / u;
    if a == b {
      assert a * b == a + b;
      assert i == u;
    }
    if Jaccard(a, b) == 1.0 {
      assert i == (i / u) * u;
      assert |a * b| == |a + b|;
      assert a * b == a + b;
      assert a <= a + b && b <= a + b;
    }
  }

  /** The similarity is 0 exactly when the two word sets share no word. */
  lemma JaccardZeroIff(a: set<string>, b: set<string>)
    requires a + b != {}
    ensures Jaccard(a, b) == 0.0 <==> a * b == {}
  {
    if a * b != {} {
      var x :| x in a * b;
      assert |a * b| >= 1 by { assert {x} <= a * b; SubsetCard({x}, a * b); }
    }
  }

  /** Every training example shares a word with, or has a word besides, the test question. */
  predicate SimilarityDefined(trainingData: seq<Example>, testWords: seq<string>) {
    forall j :: 0 <= j < |trainingData| ==> TokenSet(trainingData[j].xTok) + TokenSet(testWords) != {}
  }

  /** The Jaccard similarity of each training example with the test question, in training order. */
  function Similarities(trainingData: seq<Example>, testWords: seq<string>): (s: seq<real>)
    requires SimilarityDefined(trainingData, testWords)
    ensures |s| == |trainingData|
    ensures forall j :: 0 <= j < |trainingData| ==>
      s[j] == Jaccard(TokenSet(trainingData[j].xTok), TokenSet(testWords))
  {
    seq(|trainingData|, j requires 0 <= j < |trainingData| =>
      Jaccard(TokenSet(trainingData[j].xTok), TokenSet(testWords)))
  }

  /** The training example the baseline retrieves: the first one of maximal similarity. */
  function Nearest(trainingData: seq<Example>, testWords: seq<string>): (k: nat)
    requires |trainingData| > 0 && SimilarityDefined(trainingData, testWords)
    ensures k < |trainingData|
    ensures forall j :: 0 <= j < |trainingData| ==>
      Similarities(trainingData, testWords)[j] <= Similarities(trainingData, testWords)[k]
    ensures forall j :: 0 <= j < k ==>
      Similarities(trainingData, testWords)[j] < Similarities(trainingData, testWords)[k]
  {
    FirstArgMax(Similarities(trainingData, testWords))
  }

  /**
   * If some training question has exactly the test question's word set, the
   * first such training example is the one retrieved.
   */
  lemma NearestExactMatch(trainingData: seq<Example>, testWords: seq<string>, j: nat)
    requires |trainingData| > 0 && SimilarityDefined(trainingData, testWords)
    requires j < |trainingData| && TokenSet(trainingData[j].xTok) == TokenSet(testWords)
    requires forall i :: 0 <= i < j ==> TokenSet(trainingData[i].xTok) != TokenSet(testWords)
    ensures Nearest(trainingData, testWords) == j
  {
    var s := Similarities(trainingData, testWords);
    var k := Nearest(trainingData, testWords);
    var w := TokenSet(testWords);
    JaccardOneIff(TokenSet(trainingData[j].xTok), w);
    JaccardOneIff(TokenSet(trainingData[k].xTok), w);
    assert s[j] == 1.0;
    assert s[k] == 1.0;
  }

  /** The baseline holds nothing but its training data. */
  datatype NearestNeighborSemanticParser = NearestNeighborSemanticParser(trainingData: seq<Example>)

  /** The state of the scan after i examples: nothing yet, or the first maximum of the first i similarities. */
  predicate ScanState(s: seq<real>, i: nat, bestJaccard: real, bestTrainEx: Option<nat>)
    requires i <= |s|
  {
    && (i == 0 ==> bestTrainEx == None && bestJaccard == -1.0)
    && (i > 0 ==> bestTrainEx == Some(FirstArgMax(s[..i])) && bestJaccard == s[FirstArgMax(s[..i])])
  }

  /** One step of the scan: a non-negative similarity that beats the best so far takes its place. */
  lemma ScanAdvance(s: seq<real>, i: nat, bestJaccard: real, bestTrainEx: Option<nat>)
    requires i < |s| && ScanState(s, i, bestJaccard, bestTrainEx) && 0.0 <= s[i]
    ensures s[i] > bestJaccard ==> ScanState(s, i + 1, s[i], Some(i))
    ensures s[i] <= bestJaccard ==> ScanState(s, i + 1, bestJaccard, bestTrainEx)
  {
    if i == 0 {
      assert FirstArgMax(s[..1]) == 0;
    } else {
      FirstArgMaxSnoc(s, i);
    }
  }

  /** The inner scan of `decode`: keep the first example whose similarity beats the best so far, starting below 0. */
  method BestTrainExample(trainingData: seq<Example>, testWords: seq<string>) returns (best: nat)
    requires |trainingData| > 0 && SimilarityDefined(trainingData, testWords)
    ensures best == Nearest(trainingData, testWords)
  {
    ghost var s := Similarities(trainingData, testWords);
    var bestJaccard: real := -1.0;
    var bestTrainEx: Option<nat> := None;
    for i := 0 to |trainingData|
      invariant ScanState(s, i, bestJaccard, bestTrainEx)
    {
      var trainWords := TokenSet(trainingData[i].xTok);
      var testSet := TokenSet(testWords);
      var overlap := |trainWords * testSet|;
      var jaccard := (overlap as real) / (|trainWords + testSet| as real);
      assert jaccard == s[i];
      ScanAdvance(s, i, bestJaccard, bestTrainEx);
      if jaccard > bestJaccard {
        bestJaccard := jaccard;
        bestTrainEx := Some(i);
      }
    }
    assert s[..|trainingData|] == s;
    best := bestTrainEx.value;
  }

  /** The k-best list `decode` gives one test example: the gold output of the nearest training example, with probability 1. */
  function Retrieved(trainingData: seq<Example>, ex: Example): (derivs: seq<Derivation>)
    requires |trainingData| > 0 && SimilarityDefined(trainingData, ex.xTok)
    ensures |derivs| == 1 && derivs[0].example == ex && derivs[0].prob == 1.0
    ensures exists k :: 0 <= k < |trainingData| && derivs[0].yToks == trainingData[k].yTok
  {
    var k := Nearest(trainingData, ex.xTok);
    [Derivation(ex, 1.0, trainingData[k].yTok)]
  }

  /** `decode`: one single-Derivation k-best list per test example, in order, with probability 1. */
  method Decode(parser: NearestNeighborSemanticParser, testData: seq<Example>) returns (testDerivs: seq<seq<Derivation>>)
    requires |testData| > 0 ==> |parser.trainingData| > 0
    requires forall i :: 0 <= i < |testData| ==> SimilarityDefined(parser.trainingData, testData[i].xTok)
    ensures |testDerivs| == |testData|
    ensures forall i :: 0 <= i < |testData| ==> testDerivs[i] == Retrieved(parser.trainingData, testData[i])
  {
    testDerivs := [];
    for i := 0 to |testData|
      invariant |testDerivs| == i
      invariant forall t :: 0 <= t < i ==> testDerivs[t] == Retrieved(parser.trainingData, testData[t])
    {
      var testEx := testData[i];
      var best := BestTrainExample(parser.trainingData, testEx.xTok);
      testDerivs := testDerivs + [[Derivation(testEx, 1.0, parser.trainingData[best].yTok)]];
    }
  }

  datatype Option<T> = None | Some(value: T)
}
