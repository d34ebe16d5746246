// The discrete parts of RNNEncoder: its output size and the 0/1 context mask
// built from the true sequence lengths.
module Encoder {
  import opened SeqUtil

  /** The configuration of a one-layer LSTM encoder (its weights are not modelled). */
  datatype RnnEncoder = RnnEncoder(inputEmbDim: nat, hiddenSize: nat, bidirect: bool)

  /** `get_output_size`: a bidirectional encoder's per-position output holds both directions. */
  function GetOutputSize(enc: RnnEncoder): (n: nat)
    ensures enc.bidirect ==> n == 2 * enc.hiddenSize
    ensures !enc.bidirect ==> n == enc.hiddenSize
  {
    if enc.bidirect then enc.hiddenSize * 2 else enc.hiddenSize
  }

  /** `sent_lens_to_mask`: |lens| rows of width maxLength marking real positions with 1 and padding with 0. */
  function SentLensToMask(lens: seq<nat>, maxLength: nat): (mask: seq<seq<int>>)
    ensures |mask| == |lens|
    ensures forall i :: 0 <= i < |lens| ==> |mask[i]| == maxLength
    ensures forall i, j :: 0 <= i < |lens| && 0 <= j < maxLength ==>
      (mask[i][j] == 1 <==> j < lens[i]) && (mask[i][j] == 0 <==> lens[i] <= j)
  {
    seq(|lens|, i requires 0 <= i < |lens| =>
      seq(maxLength, j requires 0 <= j < maxLength => if j < lens[i] then 1 else 0))
  }

  /** The number of 1 entries of a row. */
  function CountOnes(row: seq<int>): (c: nat)
    ensures c <= |row|
  {
    if |row| == 0 then 0 else CountOnes(row[..|row| - 1]) + (if row[|row| - 1] == 1 then 1 else 0)
  }

  lemma {:induction false} CountOnesPrefixThenZeros(k: nat, z: nat)
    ensures CountOnes(Repeat(1, k) + Repeat(0, z)) == k
  {
    var row := Repeat(1, k) + Repeat(0, z);
    if z > 0 {
      assert row[..|row| - 1] == Repeat(1, k) + Repeat(0, z - 1);
      CountOnesPrefixThenZeros(k, z - 1);
    } else if k > 0 {
      assert row == Repeat(1, k);
      assert row[..|row| - 1] == Repeat(1, k - 1) + Repeat(0, 0);
      CountOnesPrefixThenZeros(k - 1, 0);
    }
  }

  /** Every mask row is a run of min(lens[i], maxLength) ones followed by zeros. */
  lemma MaskRowIsOnesThenZeros(lens: seq<nat>, maxLength: nat, i: nat)
    requires i < |lens|
    ensures var k := Min(lens[i], maxLength);
      SentLensToMask(lens, maxLength)[i] == Repeat(1, k) + Repeat(0, maxLength - k)
  {
    var k := Min(lens[i], maxLength);
    var row := SentLensToMask(lens, maxLength)[i];
    var rhs := Repeat(1, k) + Repeat(0, maxLength - k);
    forall j | 0 <= j < maxLength
      ensures row[j] == rhs[j]
    {
      if j < k {
        assert rhs[j] == Repeat(1, k)[j];
      } else {
        assert rhs[j] == Repeat(0, maxLength - k)[j - k];
      }
    }
  }

  /** Every mask row holds exactly min(lens[i], maxLength) ones. */
  lemma MaskRowCount(lens: seq<nat>, maxLength: nat, i: nat)
    requires i < |lens|
    ensures CountOnes(SentLensToMask(lens, maxLength)[i]) == Min(lens[i], maxLength)
  {
    var k := Min(lens[i], maxLength);
    MaskRowIsOnesThenZeros(lens, maxLength, i);
    CountOnesPrefixThenZeros(k, maxLength - k);
  }

  /** The mask `forward` builds: widths are the longest length in the batch. */
  function ContextMask(inputLens: seq<nat>): (mask: seq<seq<int>>)
    requires |inputLens| > 0
    ensures |mask| == |inputLens|
    ensures forall i :: 0 <= i < |inputLens| ==> |mask[i]| == MaxOf(inputLens)
    ensures forall i, j :: 0 <= i < |inputLens| && 0 <= j < MaxOf(inputLens) ==> (mask[i][j] == 1 <==> j < inputLens[i])
  {
    SentLensToMask(inputLens, MaxOf(inputLens))
  }

  /** In the context mask every row holds exactly as many ones as its sequence is long. */
  lemma ContextMaskCountsLength(inputLens: seq<nat>, i: nat)
    requires |inputLens| > 0 && i < |inputLens|
    ensures |ContextMask(inputLens)[i]| == MaxOf(inputLens)
    ensures CountOnes(ContextMask(inputLens)[i]) == inputLens[i]
  {
    MaskRowCount(inputLens, MaxOf(inputLens), i);
  }

  /** The example in the documentation of `encode_input`. */
  lemma MaskExample()
    ensures SentLensToMask([2, 3, 1], 3) == [[1, 1, 0], [1, 1, 1], [1, 0, 0]]
  {
    var mask := SentLensToMask([2, 3, 1], 3);
    assert mask[0] == [1, 1, 0] by { MaskRowIsOnesThenZeros([2, 3, 1], 3, 0); }
    assert mask[1] == [1, 1, 1] by { MaskRowIsOnesThenZeros([2, 3, 1], 3, 1); }
    assert mask[2] == [1, 0, 0] by { MaskRowIsOnesThenZeros([2, 3, 1], 3, 2); }
  }
}
