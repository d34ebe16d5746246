// The discrete data preparation of train_model_encdec: whole-data tensors
// padded to the longest training sequence, true-length vectors, and the
// minibatches the data loader cuts from them; and what this means for the
// teacher-forcing schedule of `forward`.
module Training {
  import opened Data
  import opened SeqUtil
  import opened Padding
  import opened Seq2Seq
  import opened Encoder

  function XLengths(exs: seq<Example>): (lens: seq<nat>)
    ensures |lens| == |exs|
    ensures forall e :: 0 <= e < |exs| ==> lens[e] == |exs[e].xIndexed|
  {
    seq(|exs|, e requires 0 <= e < |exs| => |exs[e].xIndexed|)
  }

  function YLengths(exs: seq<Example>): (lens: seq<nat>)
    ensures |lens| == |exs|
    ensures forall e :: 0 <= e < |exs| ==> lens[e] == |exs[e].yIndexed|
  {
    seq(|exs|, e requires 0 <= e < |exs| => |exs[e].yIndexed|)
  }

  /** The four tensors of one minibatch: x ids, input lengths, y ids, output lengths. */
  datatype Batch = Batch(xTensor: seq<seq<Id>>, inpLens: seq<nat>, yTensor: seq<seq<Id>>, outLens: seq<nat>)

  /** The rows of `s` at the positions `sel`, in that order. */
  function Select<T>(s: seq<T>, sel: seq<nat>): (r: seq<T>)
    requires forall k :: 0 <= k < |sel| ==> sel[k] < |s|
    ensures |r| == |sel|
    ensures forall k :: 0 <= k < |sel| ==> r[k] == s[sel[k]]
  {
    seq(|sel|, k requires 0 <= k < |sel| && sel[k] < |s| => s[sel[k]])
  }

  /**
   * The minibatch made of training rows `sel`: the whole-data tensors are padded
   * (not reversed) to the longest training input and output, and the loader hands
   * out the chosen rows with their lengths.
   */
  function MakeBatch(inputIndexer: Indexer, outputIndexer: Indexer, trainData: seq<Example>, sel: seq<nat>): (bt: Batch)
    requires inputIndexer.Valid() && outputIndexer.Valid() && |trainData| > 0
    requires forall k :: 0 <= k < |sel| ==> sel[k] < |trainData|
    ensures |bt.xTensor| == |sel| && |bt.inpLens| == |sel| && |bt.yTensor| == |sel| && |bt.outLens| == |sel|
    ensures forall k :: 0 <= k < |sel| ==>
      bt.inpLens[k] == |trainData[sel[k]].xIndexed| && bt.outLens[k] == |trainData[sel[k]].yIndexed|
    ensures forall k :: 0 <= k < |sel| ==>
      |bt.xTensor[k]| == MaxOf(XLengths(trainData)) && |bt.yTensor[k]| == MaxOf(YLengths(trainData))
  {
    var inputMaxLen := MaxOf(XLengths(trainData));
    var outputMaxLen := MaxOf(YLengths(trainData));
    var allInput := MakePaddedInputTensor(trainData, inputIndexer, inputMaxLen, false);
    var allOutput := MakePaddedOutputTensor(trainData, outputIndexer, outputMaxLen);
    Batch(Select(allInput, sel), Select(XLengths(trainData), sel), Select(allOutput, sel), Select(YLengths(trainData), sel))
  }

  /**
   * A minibatch always fits `forward`'s needs, and padding is invisible to it:
   * the encoder of row r sees exactly its example's input ids, and its gold row
   * starts with exactly its example's output ids.
   */
  lemma BatchRowsAreExamples(inputIndexer: Indexer, outputIndexer: Indexer, trainData: seq<Example>, sel: seq<nat>, r: nat)
    requires inputIndexer.Valid() && outputIndexer.Valid() && |trainData| > 0
    requires forall k :: 0 <= k < |sel| ==> sel[k] < |trainData|
    requires r < |sel|
    ensures var bt := MakeBatch(inputIndexer, outputIndexer, trainData, sel);
      && BatchShape(bt.xTensor, bt.inpLens, bt.yTensor, bt.outLens, |sel|)
      && bt.xTensor[r][..bt.inpLens[r]] == trainData[sel[r]].xIndexed
      && bt.outLens[r] == |trainData[sel[r]].yIndexed|
      && bt.yTensor[r][..bt.outLens[r]] == trainData[sel[r]].yIndexed
  {
    var bt := MakeBatch(inputIndexer, outputIndexer, trainData, sel);
    var inputMaxLen := MaxOf(XLengths(trainData));
    var outputMaxLen := MaxOf(YLengths(trainData));
    var inPad := inputIndexer.IndexOf(PadSymbol);
    var outPad := outputIndexer.IndexOf(PadSymbol);
    var e := sel[r];
    assert |trainData[e].xIndexed| <= inputMaxLen && |trainData[e].yIndexed| <= outputMaxLen;
    PadRowRecovers(trainData[e].xIndexed, inPad, inputMaxLen);
    PadRowRecovers(trainData[e].yIndexed, outPad, outputMaxLen);
    forall k | 0 <= k < |sel|
      ensures bt.inpLens[k] <= |bt.xTensor[k]| && bt.outLens[k] <= |bt.yTensor[k]|
    {
      assert |trainData[sel[k]].xIndexed| <= inputMaxLen && |trainData[sel[k]].yIndexed| <= outputMaxLen;
    }
  }

  /**
   * Training on a minibatch: row r's step i is fed SOS (i = 0) or the gold id
   * y_indexed[i - 1], and is scored against the gold id y_indexed[i], for
   * exactly the |y_indexed| steps of that example; PAD is never a target.
   */
  lemma TrainingTargetsAreGold<S(!new)>(p: Seq2SeqSemanticParser<S>, trainData: seq<Example>, sel: seq<nat>,
                                        batchSize: nat, r: nat, i: nat)
    requires ValidParser(p) && |trainData| > 0
    requires forall k :: 0 <= k < |sel| ==> sel[k] < |trainData|
    requires batchSize <= |sel| && r < batchSize && i < |trainData[sel[r]].yIndexed|
    ensures var bt := MakeBatch(p.inputIndexer, p.outputIndexer, trainData, sel);
      && BatchShape(bt.xTensor, bt.inpLens, bt.yTensor, bt.outLens, batchSize)
      && var terms := BatchTerms(p, bt.xTensor, bt.inpLens, bt.yTensor, bt.outLens, batchSize);
      && var y := trainData[sel[r]].yIndexed;
      && SumNat(bt.outLens[..r]) + i < |terms|
      && terms[SumNat(bt.outLens[..r]) + i].fed == (if i == 0 then p.outputIndexer.IndexOf(SosSymbol) else y[i - 1])
      && terms[SumNat(bt.outLens[..r]) + i].target == y[i]
  {
    var bt := MakeBatch(p.inputIndexer, p.outputIndexer, trainData, sel);
    BatchRowsAreExamples(p.inputIndexer, p.outputIndexer, trainData, sel, r);
    assert BatchShape(bt.xTensor, bt.inpLens, bt.yTensor, bt.outLens, batchSize);
    TeacherForcingSchedule(p, bt.xTensor, bt.inpLens, bt.yTensor, bt.outLens, batchSize, r, i);
    var y := trainData[sel[r]].yIndexed;
    assert bt.yTensor[r][i] == y[i] by { assert bt.yTensor[r][..bt.outLens[r]][i] == y[i]; }
    if i > 0 {
      assert bt.yTensor[r][i - 1] == y[i - 1] by { assert bt.yTensor[r][..bt.outLens[r]][i - 1] == y[i - 1]; }
    }
  }

  /** The encoder of every minibatch row starts the decoder from that example's own input ids. */
  lemma TrainingEncoderSeesExample<S(!new)>(p: Seq2SeqSemanticParser<S>, trainData: seq<Example>, sel: seq<nat>, r: nat)
    requires ValidParser(p) && |trainData| > 0
    requires forall k :: 0 <= k < |sel| ==> sel[k] < |trainData|
    requires r < |sel|
    ensures var bt := MakeBatch(p.inputIndexer, p.outputIndexer, trainData, sel);
      RowState(p, bt.xTensor, bt.inpLens, r) == p.encode(trainData[sel[r]].xIndexed)
  {
    BatchRowsAreExamples(p.inputIndexer, p.outputIndexer, trainData, sel, r);
  }

  /**
   * The context mask of a padded (not reversed) input table marks exactly its
   * real ids: where the mask is 1 the row holds the example's id, where it is 0
   * the row holds PAD, whether or not the row was truncated.
   */
  lemma MaskMarksRealTokens(exs: seq<Example>, inputIndexer: Indexer, maxLen: nat, e: nat, j: nat)
    requires PadSymbol in inputIndexer.objs
    requires e < |exs| && j < maxLen
    ensures var mask := SentLensToMask(XLengths(exs), maxLen);
      var t := MakePaddedInputTensor(exs, inputIndexer, maxLen, false);
      && (mask[e][j] == 1 ==> j < |exs[e].xIndexed| && t[e][j] == exs[e].xIndexed[j])
      && (mask[e][j] == 0 ==> t[e][j] == inputIndexer.IndexOf(PadSymbol))
  {}
}
