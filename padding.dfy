// make_padded_input_tensor and make_padded_output_tensor: every example
// becomes one row of exactly maxLen ids, right-padded with the PAD id or
// truncated; the input rows may be read back to front.
module Padding {
  import opened Data
  import opened SeqUtil

  /** One row: entry i is ids[i] while i is inside the sequence, PAD past its end. */
  function PadRow(ids: seq<Id>, pad: Id, maxLen: nat): (row: seq<Id>)
    ensures |row| == maxLen
  {
    seq(maxLen, i requires 0 <= i < maxLen => if i < |ids| then ids[i] else pad)
  }

  /** One reversed row: entry i is ids[|ids| - 1 - i] while i is inside the sequence, PAD past its end. */
  function PadRowReversed(ids: seq<Id>, pad: Id, maxLen: nat): (row: seq<Id>)
    ensures |row| == maxLen
  {
    seq(maxLen, i requires 0 <= i < maxLen => if i < |ids| then ids[|ids| - 1 - i] else pad)
  }

  /** A [|exs| x maxLen] table of the examples' input ids. */
  function MakePaddedInputTensor(exs: seq<Example>, inputIndexer: Indexer, maxLen: nat, reverseInput: bool): (t: seq<seq<Id>>)
    requires PadSymbol in inputIndexer.objs
    ensures |t| == |exs|
    ensures forall e :: 0 <= e < |t| ==> |t[e]| == maxLen
  {
    var pad := inputIndexer.IndexOf(PadSymbol);
    if reverseInput then
      seq(|exs|, e requires 0 <= e < |exs| => PadRowReversed(exs[e].xIndexed, pad, maxLen))
    else
      seq(|exs|, e requires 0 <= e < |exs| => PadRow(exs[e].xIndexed, pad, maxLen))
  }

  /** A [|exs| x maxLen] table of the examples' output ids, never reversed. */
  function MakePaddedOutputTensor(exs: seq<Example>, outputIndexer: Indexer, maxLen: nat): (t: seq<seq<Id>>)
    requires PadSymbol in outputIndexer.objs
    ensures |t| == |exs|
    ensures forall e :: 0 <= e < |t| ==> |t[e]| == maxLen
  {
    var pad := outputIndexer.IndexOf(PadSymbol);
    seq(|exs|, e requires 0 <= e < |exs| => PadRow(exs[e].yIndexed, pad, maxLen))
  }

  /** A row is the first min(|ids|, maxLen) ids followed by PAD to the full width. */
  lemma PadRowIsPrefixThenPad(ids: seq<Id>, pad: Id, maxLen: nat)
    ensures PadRow(ids, pad, maxLen) == ids[..Min(|ids|, maxLen)] + Repeat(pad, maxLen - Min(|ids|, maxLen))
  {
    var m := Min(|ids|, maxLen);
    var rhs := ids[..m] + Repeat(pad, maxLen - m);
    forall i | 0 <= i < maxLen
      ensures PadRow(ids, pad, maxLen)[i] == rhs[i]
    {
      if i < m {
        assert rhs[i] == ids[i];
      } else {
        assert rhs[i] == Repeat(pad, maxLen - m)[i - m];
      }
    }
  }

  /** A reversed row is the first min(|ids|, maxLen) ids of the reversed sequence followed by PAD. */
  lemma PadRowReversedIsReversePrefixThenPad(ids: seq<Id>, pad: Id, maxLen: nat)
    ensures PadRowReversed(ids, pad, maxLen) == Reverse(ids)[..Min(|ids|, maxLen)] + Repeat(pad, maxLen - Min(|ids|, maxLen))
  {
    var m := Min(|ids|, maxLen);
    var rev := Reverse(ids);
    forall i | 0 <= i < m
      ensures rev[i] == ids[|ids| - 1 - i]
    {
      ReverseAt(ids, i);
    }
    PadRowReversedByReverse(ids, rev, pad, maxLen);
  }

  lemma PadRowReversedByReverse(ids: seq<Id>, rev: seq<Id>, pad: Id, maxLen: nat)
    requires |rev| == |ids|
    requires forall i :: 0 <= i < Min(|ids|, maxLen) ==> rev[i] == ids[|ids| - 1 - i]
    ensures PadRowReversed(ids, pad, maxLen) == rev[..Min(|ids|, maxLen)] + Repeat(pad, maxLen - Min(|ids|, maxLen))
  {
    var m := Min(|ids|, maxLen);
    var rhs := rev[..m] + Repeat(pad, maxLen - m);
    forall i | 0 <= i < maxLen
      ensures PadRowReversed(ids, pad, maxLen)[i] == rhs[i]
    {
      if i < m {
        assert rhs[i] == rev[i];
      } else {
        assert rhs[i] == Repeat(pad, maxLen - m)[i - m];
      }
    }
  }

  /** A reversed row that truncates keeps the LAST maxLen ids, back to front. */
  lemma PadRowReversedKeepsSuffix(ids: seq<Id>, pad: Id, maxLen: nat)
    requires maxLen <= |ids|
    ensures PadRowReversed(ids, pad, maxLen) == Reverse(ids[|ids| - maxLen..])
  {
    var tail := ids[|ids| - maxLen..];
    forall i | 0 <= i < maxLen
      ensures PadRowReversed(ids, pad, maxLen)[i] == Reverse(tail)[i]
    {
      ReverseAt(tail, i);
    }
  }

  /** Nothing is lost when the sequence fits: its ids are the row's first |ids| entries. */
  lemma PadRowRecovers(ids: seq<Id>, pad: Id, maxLen: nat)
    requires |ids| <= maxLen
    ensures PadRow(ids, pad, maxLen)[..|ids|] == ids
    ensures forall i :: |ids| <= i < maxLen ==> PadRow(ids, pad, maxLen)[i] == pad
  {
    PadRowIsPrefixThenPad(ids, pad, maxLen);
  }

  /** Nothing is lost when the sequence fits: reversing the reversed row's first |ids| entries gives the ids back. */
  lemma PadRowReversedRecovers(ids: seq<Id>, pad: Id, maxLen: nat)
    requires |ids| <= maxLen
    ensures Reverse(PadRowReversed(ids, pad, maxLen)[..|ids|]) == ids
    ensures forall i :: |ids| <= i < maxLen ==> PadRowReversed(ids, pad, maxLen)[i] == pad
  {
    PadRowReversedIsReversePrefixThenPad(ids, pad, maxLen);
    assert PadRowReversed(ids, pad, maxLen)[..|ids|] == Reverse(ids);
    ReverseReverse(ids);
  }

  /** Row e of the input table, not reversed: the example's first ids, truncated or PAD-filled to maxLen. */
  lemma InputTensorRow(exs: seq<Example>, inputIndexer: Indexer, maxLen: nat, e: nat)
    requires PadSymbol in inputIndexer.objs && e < |exs|
    ensures var x := exs[e].xIndexed; var m := Min(|x|, maxLen);
      MakePaddedInputTensor(exs, inputIndexer, maxLen, false)[e]
        == x[..m] + Repeat(inputIndexer.IndexOf(PadSymbol), maxLen - m)
  {
    PadRowIsPrefixThenPad(exs[e].xIndexed, inputIndexer.IndexOf(PadSymbol), maxLen);
  }

  /** Row e of the input table, reversed: the reversed ids, truncated or PAD-filled to maxLen. */
  lemma InputTensorRowReversed(exs: seq<Example>, inputIndexer: Indexer, maxLen: nat, e: nat)
    requires PadSymbol in inputIndexer.objs && e < |exs|
    ensures var x := exs[e].xIndexed; var m := Min(|x|, maxLen);
      MakePaddedInputTensor(exs, inputIndexer, maxLen, true)[e]
        == Reverse(x)[..m] + Repeat(inputIndexer.IndexOf(PadSymbol), maxLen - m)
  {
    PadRowReversedIsReversePrefixThenPad(exs[e].xIndexed, inputIndexer.IndexOf(PadSymbol), maxLen);
  }

  /** Row e of the output table: the example's first output ids, truncated or PAD-filled to maxLen. */
  lemma OutputTensorRow(exs: seq<Example>, outputIndexer: Indexer, maxLen: nat, e: nat)
    requires PadSymbol in outputIndexer.objs && e < |exs|
    ensures var y := exs[e].yIndexed; var m := Min(|y|, maxLen);
      MakePaddedOutputTensor(exs, outputIndexer, maxLen)[e]
        == y[..m] + Repeat(outputIndexer.IndexOf(PadSymbol), maxLen - m)
  {
    PadRowIsPrefixThenPad(exs[e].yIndexed, outputIndexer.IndexOf(PadSymbol), maxLen);
  }
}
