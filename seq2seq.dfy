// Seq2SeqSemanticParser with its neural layers abstracted: `decode` (greedy
// decoding of every test example) and `forward` (the teacher-forcing
// schedule of one training batch and its summed loss).
module Seq2Seq {
  import opened Data
  import opened SeqUtil
  import opened GreedyDecoding

  /**
   * The parser's parts. `encode` is the input embedding and encoder, giving the
   * decoder's initial state (final hidden/cell pair and the trimmed encoder
   * outputs) from a sequence's real ids; `step` is the output embedding and one
   * attention-decoder step; `logProbOf` is the maximum of log_softmax over a
   * score vector, `expOf` the exponential, `lossOf` the cross-entropy of a score
   * vector against a gold id.
   */
  datatype Seq2SeqSemanticParser<!S> = Seq2SeqSemanticParser(
    inputIndexer: Indexer,
    outputIndexer: Indexer,
    encode: seq<Id> -> S,
    step: (Id, S) -> (seq<real>, S),
    logProbOf: seq<real> -> real,
    expOf: real -> real,
    lossOf: (seq<real>, Id) -> real)

  /** Both indexers are valid and every decoder step scores the whole output vocabulary. */
  ghost predicate ValidParser<S(!new)>(p: Seq2SeqSemanticParser<S>) {
    p.inputIndexer.Valid() && p.outputIndexer.Valid() && ScoresWidth(p.step, p.outputIndexer.Size())
  }

  /** The output symbols of a sequence of ids. */
  function Symbols(ix: Indexer, ids: seq<Id>): (syms: seq<string>)
    requires forall i :: 0 <= i < |ids| ==> ids[i] < ix.Size()
    ensures |syms| == |ids|
    ensures ix.Valid() ==> forall i :: 0 <= i < |ids| ==> syms[i] in ix.objs && ix.IndexOf(syms[i]) == ids[i]
  {
    seq(|ids|, i requires 0 <= i < |ids| && ids[i] < ix.Size() => ix.GetObject(ids[i]))
  }

  /** The ids the greedy loop emits for one example. */
  function PredictedIds<S(!new)>(p: Seq2SeqSemanticParser<S>, ex: Example): (ids: seq<Id>)
    requires ValidParser(p)
    ensures |ids| <= MaxDecodeSteps
    ensures p.outputIndexer.IndexOf(EosSymbol) !in ids
    ensures forall i :: 0 <= i < |ids| ==> ids[i] < p.outputIndexer.Size()
  {
    Greedy(p.step, p.outputIndexer.Size(), p.outputIndexer.IndexOf(EosSymbol),
           p.outputIndexer.IndexOf(SosSymbol), p.encode(ex.xIndexed), MaxDecodeSteps)
  }

  /** The one-best Derivation `decode` builds for one example. */
  function Prediction<S(!new)>(p: Seq2SeqSemanticParser<S>, ex: Example): (d: Derivation)
    requires ValidParser(p)
    ensures d.example == ex
    ensures |d.yToks| == |PredictedIds(p, ex)|
    ensures forall i :: 0 <= i < |d.yToks| ==>
      d.yToks[i] in p.outputIndexer.objs && p.outputIndexer.IndexOf(d.yToks[i]) == PredictedIds(p, ex)[i]
  {
    var n := p.outputIndexer.Size();
    var eos := p.outputIndexer.IndexOf(EosSymbol);
    var sos := p.outputIndexer.IndexOf(SosSymbol);
    var st0 := p.encode(ex.xIndexed);
    Derivation(ex, p.expOf(GreedyLogProb(p.step, n, p.logProbOf, eos, sos, st0, MaxDecodeSteps)),
               Symbols(p.outputIndexer, PredictedIds(p, ex)))
  }

  /** A prediction never holds the EOS symbol and has at most MaxDecodeSteps symbols. */
  lemma PredictionShape<S(!new)>(p: Seq2SeqSemanticParser<S>, ex: Example)
    requires ValidParser(p)
    ensures Prediction(p, ex).example == ex
    ensures |Prediction(p, ex).yToks| <= MaxDecodeSteps
    ensures EosSymbol !in Prediction(p, ex).yToks
  {
    var ids := PredictedIds(p, ex);
    var syms := Prediction(p, ex).yToks;
    var eos := p.outputIndexer.IndexOf(EosSymbol);
    forall i | 0 <= i < |syms|
      ensures syms[i] != EosSymbol
    {
      assert ids[i] != eos;
      assert p.outputIndexer.IndexOf(syms[i]) == ids[i];
    }
  }

  /** `decode`: one single-Derivation k-best list per test example, in order. */
  method Decode<S(!new)>(p: Seq2SeqSemanticParser<S>, testData: seq<Example>) returns (unpacked: seq<seq<Derivation>>)
    requires ValidParser(p)
    ensures |unpacked| == |testData|
    ensures forall i :: 0 <= i < |testData| ==> unpacked[i] == [Prediction(p, testData[i])]
  {
    var n := p.outputIndexer.Size();
    var sos := p.outputIndexer.IndexOf(SosSymbol);
    var eos := p.outputIndexer.IndexOf(EosSymbol);
    ReservedIdsDistinct(p.outputIndexer);
    unpacked := [];
    for i := 0 to |testData|
      invariant |unpacked| == i
      invariant forall t :: 0 <= t < i ==> unpacked[t] == [Prediction(p, testData[t])]
    {
      var ex := testData[i];
      var st0 := p.encode(ex.xIndexed);
      var entryWord, prob := GreedyDecode(p.step, n, p.logProbOf, sos, eos, st0);
      var predicted := Symbols(p.outputIndexer, entryWord);
      unpacked := unpacked + [[Derivation(ex, p.expOf(prob), predicted)]];
    }
  }

  /** One loss term of `forward`: the token fed to the decoder, the gold target and the loss. */
  datatype LossTerm = LossTerm(fed: Id, target: Id, loss: real)

  /** The loss terms of steps k .. n-1 of one row, the decoder fed `fed` in state `st` at step k. */
  function RowTerms<S>(p: Seq2SeqSemanticParser<S>, fed: Id, st: S, ys: seq<Id>, k: nat, n: nat): (terms: seq<LossTerm>)
    requires k <= n <= |ys|
    ensures |terms| == n - k
    decreases n - k
  {
    if k == n then []
    else
      var (scores, st') := p.step(fed, st);
      [LossTerm(fed, ys[k], p.lossOf(scores, ys[k]))] + RowTerms(p, ys[k], st', ys, k + 1, n)
  }

  /** The first batchSize rows, their true lengths and their gold outputs are all there. */
  predicate BatchShape(xs: seq<seq<Id>>, inpLens: seq<nat>, ys: seq<seq<Id>>, outLens: seq<nat>, batchSize: nat) {
    && batchSize <= |xs| && batchSize <= |inpLens| && batchSize <= |ys| && batchSize <= |outLens|
    && forall b :: 0 <= b < batchSize ==> inpLens[b] <= |xs[b]| && outLens[b] <= |ys[b]|
  }

  /** The decoder's initial state for row b: the encoder's final state for that row's real ids. */
  function RowState<S>(p: Seq2SeqSemanticParser<S>, xs: seq<seq<Id>>, inpLens: seq<nat>, b: nat): (st: S)
    requires b < |xs| && b < |inpLens| && inpLens[b] <= |xs[b]|
  {
    p.encode(xs[b][..inpLens[b]])
  }

  /** Padding past a row's true length never reaches the decoder's initial state. */
  lemma RowStateIgnoresPadding<S>(p: Seq2SeqSemanticParser<S>, xs: seq<seq<Id>>, xs': seq<seq<Id>>, inpLens: seq<nat>, b: nat)
    requires b < |xs| && b < |xs'| && b < |inpLens| && inpLens[b] <= |xs[b]| && inpLens[b] <= |xs'[b]|
    requires xs[b][..inpLens[b]] == xs'[b][..inpLens[b]]
    ensures RowState(p, xs, inpLens, b) == RowState(p, xs', inpLens, b)
  {}

  /** All loss terms of rows 0 .. b-1, in the order `forward` appends them. */
  function BatchTerms<S(!new)>(p: Seq2SeqSemanticParser<S>, xs: seq<seq<Id>>, inpLens: seq<nat>,
                               ys: seq<seq<Id>>, outLens: seq<nat>, b: nat): (terms: seq<LossTerm>)
    requires ValidParser(p) && BatchShape(xs, inpLens, ys, outLens, b)
    ensures |terms| == SumNat(outLens[..b])
  {
    if b == 0 then []
    else
      assert BatchShape(xs, inpLens, ys, outLens, b - 1);
      assert outLens[..b][..b - 1] == outLens[..b - 1];
      BatchTerms(p, xs, inpLens, ys, outLens, b - 1)
        + RowTerms(p, p.outputIndexer.IndexOf(SosSymbol), RowState(p, xs, inpLens, b - 1), ys[b - 1], 0, outLens[b - 1])
  }

  /** The loss of each term, in the order the terms were appended. */
  function Losses(terms: seq<LossTerm>): (ls: seq<real>)
    ensures |ls| == |terms|
    ensures forall i :: 0 <= i < |terms| ==> ls[i] == terms[i].loss
  {
    seq(|terms|, i requires 0 <= i < |terms| => terms[i].loss)
  }

  /**
   * `forward`: for each of the first batchSize rows, start from SOS and the row's
   * encoder state, and at step idx < outLens[b] feed the token, score, compare
   * with ys[b][idx] and feed that gold token next. Returns the terms and their sum.
   */
  method Forward<S(!new)>(p: Seq2SeqSemanticParser<S>, xs: seq<seq<Id>>, inpLens: seq<nat>,
                          ys: seq<seq<Id>>, outLens: seq<nat>, batchSize: nat)
    returns (iterLoss: seq<LossTerm>, batchLoss: real)
    requires ValidParser(p) && BatchShape(xs, inpLens, ys, outLens, batchSize)
    ensures iterLoss == BatchTerms(p, xs, inpLens, ys, outLens, batchSize)
    ensures batchLoss == SumReal(Losses(iterLoss))
  {
    var token := p.outputIndexer.IndexOf(SosSymbol);
    iterLoss := [];
    for b := 0 to batchSize
      invariant BatchShape(xs, inpLens, ys, outLens, b)
      invariant iterLoss == BatchTerms(p, xs, inpLens, ys, outLens, b)
    {
      assert BatchShape(xs, inpLens, ys, outLens, b + 1);
      var start := token;
      var st := p.encode(xs[b][..inpLens[b]]);
      ghost var before := iterLoss;
      ghost var row := RowTerms(p, token, st, ys[b], 0, outLens[b]);
      for idx := 0 to outLens[b]
        invariant iterLoss + RowTerms(p, start, st, ys[b], idx, outLens[b]) == before + row
      {
        var (cellOutput, st') := p.step(start, st);
        var target := ys[b][idx];
        var loss := p.lossOf(cellOutput, target);
        AppendAssoc(iterLoss, LossTerm(start, target, loss), RowTerms(p, target, st', ys[b], idx + 1, outLens[b]));
        iterLoss := iterLoss + [LossTerm(start, target, loss)];
        start, st := target, st';
      }
    }
    batchLoss := SumReal(Losses(iterLoss));
  }

  /** Within a row, step i is fed the start token at i = 0 and the gold token ys[k + i - 1] after, and targets ys[k + i]. */
  lemma {:induction false} RowSchedule<S>(p: Seq2SeqSemanticParser<S>, fed: Id, st: S, ys: seq<Id>, k: nat, n: nat, i: nat)
    requires k <= n <= |ys| && i < n - k
    ensures RowTerms(p, fed, st, ys, k, n)[i].fed == (if i == 0 then fed else ys[k + i - 1])
    ensures RowTerms(p, fed, st, ys, k, n)[i].target == ys[k + i]
    decreases i
  {
    if i > 0 {
      var st' := p.step(fed, st).1;
      RowSchedule(p, ys[k], st', ys, k + 1, n, i - 1);
      assert RowTerms(p, fed, st, ys, k, n)[i] == RowTerms(p, ys[k], st', ys, k + 1, n)[i - 1];
    }
  }

  /** The terms of rows 0 .. b-1 are those of rows 0 .. b-2 followed by row b-1's. */
  lemma BatchTermsSnoc<S(!new)>(p: Seq2SeqSemanticParser<S>, xs: seq<seq<Id>>, inpLens: seq<nat>,
                                ys: seq<seq<Id>>, outLens: seq<nat>, b: nat)
    requires ValidParser(p) && BatchShape(xs, inpLens, ys, outLens, b) && b > 0
    ensures BatchShape(xs, inpLens, ys, outLens, b - 1)
    ensures BatchTerms(p, xs, inpLens, ys, outLens, b)
      == BatchTerms(p, xs, inpLens, ys, outLens, b - 1)
         + RowTerms(p, p.outputIndexer.IndexOf(SosSymbol), RowState(p, xs, inpLens, b - 1), ys[b - 1], 0, outLens[b - 1])
    ensures SumNat(outLens[..b]) == SumNat(outLens[..b - 1]) + outLens[b - 1]
  {
    assert BatchShape(xs, inpLens, ys, outLens, b - 1);
    assert outLens[..b][..b - 1] == outLens[..b - 1];
  }

  /** Row r's terms sit, in step order, right after the terms of the rows before it. */
  lemma {:induction false} BatchTermAt<S(!new)>(p: Seq2SeqSemanticParser<S>, xs: seq<seq<Id>>, inpLens: seq<nat>,
                                               ys: seq<seq<Id>>, outLens: seq<nat>, b: nat, r: nat, i: nat)
    requires ValidParser(p) && BatchShape(xs, inpLens, ys, outLens, b)
    requires r < b && i < outLens[r]
    ensures SumNat(outLens[..r]) + i < SumNat(outLens[..b])
    ensures BatchTerms(p, xs, inpLens, ys, outLens, b)[SumNat(outLens[..r]) + i]
      == RowTerms(p, p.outputIndexer.IndexOf(SosSymbol), RowState(p, xs, inpLens, r), ys[r], 0, outLens[r])[i]
    decreases b
  {
    BatchTermsSnoc(p, xs, inpLens, ys, outLens, b);
    var prefix := BatchTerms(p, xs, inpLens, ys, outLens, b - 1);
    var at := SumNat(outLens[..r]) + i;
    if r < b - 1 {
      BatchTermAt(p, xs, inpLens, ys, outLens, b - 1, r, i);
      assert BatchTerms(p, xs, inpLens, ys, outLens, b)[at] == prefix[at];
    }
  }

  /**
   * The schedule `forward` follows: row r < batchSize contributes exactly outLens[r]
   * terms; its step i is fed SOS when i = 0 and the gold ys[r][i - 1] after, and is
   * scored against the gold ys[r][i]. Positions at or past outLens[r] never occur.
   */
  lemma TeacherForcingSchedule<S(!new)>(p: Seq2SeqSemanticParser<S>, xs: seq<seq<Id>>, inpLens: seq<nat>,
                                        ys: seq<seq<Id>>, outLens: seq<nat>, batchSize: nat, r: nat, i: nat)
    requires ValidParser(p) && BatchShape(xs, inpLens, ys, outLens, batchSize)
    requires r < batchSize && i < outLens[r]
    ensures var terms := BatchTerms(p, xs, inpLens, ys, outLens, batchSize);
      && SumNat(outLens[..r]) + i < |terms|
      && terms[SumNat(outLens[..r]) + i].fed == (if i == 0 then p.outputIndexer.IndexOf(SosSymbol) else ys[r][i - 1])
      && terms[SumNat(outLens[..r]) + i].target == ys[r][i]
  {
    BatchTermAt(p, xs, inpLens, ys, outLens, batchSize, r, i);
    RowSchedule(p, p.outputIndexer.IndexOf(SosSymbol), RowState(p, xs, inpLens, r), ys[r], 0, outLens[r], i);
  }
}
