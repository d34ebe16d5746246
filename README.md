# Seq2seq semantic parser: the discrete core

A Dafny model of the discrete logic in `models.py` for an encoder-decoder semantic parser. The parser maps questions to logical-form tokens. The LSTM, attention and embedding layers are float tensor code. The model treats them as opaque functions and models only the logic around them:

- **Padding** (`make_padded_input_tensor`, `make_padded_output_tensor`). Every example becomes a row of exactly `max_len` ids. Short rows are right-padded with the PAD id and long rows are truncated. Input rows can optionally be read back to front.
- **The encoder's context mask** (`RNNEncoder.sent_lens_to_mask`) and its output size (`RNNEncoder.get_output_size`).
- **The nearest-neighbour baseline** (`NearestNeighborSemanticParser.decode`). It uses exact rational Jaccard similarity. A strict `>` scan picks the first training example of maximal similarity.
- **Greedy decoding** (`Seq2SeqSemanticParser.decode`). This is a state machine with a step counter, an EOS test and a hard cap of 100 steps. One neural decoder step is an abstract function `step: (token, state) -> (scores, state)`. The next token is the first argmax of the scores.
- **Teacher forcing** (`Seq2SeqSemanticParser.forward`). The model covers which (fed token, gold target) pairs each batch row produces, in which order, and how many loss terms there are. The per-step loss is an abstract function.
- **Training data preparation** (`train_model_encdec`). Whole-data tensors are padded to the longest training sequence. Minibatches are rows of those tensors.

Modules, one per component: `Data` (ids, `Indexer`, `Example`, `Derivation`), `SeqUtil` (min/max/sums, reversal, first argmax), `Padding`, `Encoder`, `NearestNeighbor`, `GreedyDecoding`, `Seq2Seq`, `Training`.

External collaborators are modelled only as data:
- The `Indexer` is a sequence of distinct symbols. The symbol with id `i` is `objs[i]`. A valid indexer holds the reserved `<PAD>`, `<SOS>` and `<EOS>` symbols.
- `Example` and `Derivation` are records.
- The neural parts of `Seq2SeqSemanticParser` are function-valued fields of a record:
  - `encode`: input embedding plus encoder, giving the decoder's initial state.
  - `step`: output embedding plus one attention-decoder step.
  - `logProbOf`: max of `log_softmax`.
  - `expOf`: `np.exp`.
  - `lossOf`: cross-entropy.

Points where the code does something a reader might not expect; the model follows the code:
- **Empty token sets.** `models.py:56` divides by the size of the union without a guard, so two empty word sets raise a division error instead of giving similarity 0. Here the non-empty union is a precondition (`Jaccard`, `NearestNeighbor.Decode`).
- **Decode step cap.** The command-line option `--decoder_len_limit` (default 65, `models.py:25`) is never read by `decode`. `models.py:144` hard-codes 100 (`MaxDecodeSteps`).
- **Batch size in `forward`.** `forward` loops over `range(batch_size)` with the configured batch size, not the actual number of rows (`models.py:103`). A smaller final minibatch would index past the rows, so `Forward` requires `batchSize` to be at most the number of rows.

## Model

| member | source | states |
|---|---|---|
| `Data.Indexer.IndexOf` | models.py:138-139 | the id `index_of` returns for a held symbol is in range and maps back to that symbol |
| `Data.Indexer.GetObject` | models.py:157 | `get_object(i)` is a held symbol, and in a valid (injective) indexer `index_of(get_object(i)) == i` |
| `Data.ReservedIdsDistinct` | models.py:138-139 | PAD, SOS and EOS have three different ids, so the decode loop starts with a token that is not EOS |
| `SeqUtil.FirstArgMax` | models.py:57-59 | the chosen index is in range, its value is maximal, and every earlier value is strictly smaller (first maximum wins ties; `torch.argmax` likewise) |
| `SeqUtil.FirstArgMaxSnoc` | models.py:57-59 | extending the scanned prefix by one value moves the first argmax to the new position exactly when the new value is strictly larger |
| `SeqUtil.FirstArgMaxUnique` | models.py:49-59 | maximality plus "all earlier strictly smaller" determine the index uniquely |
| `SeqUtil.MaxOf` | models.py:385 | `np.max` of lengths is one of them and bounds them all |
| `Padding.PadRow` | models.py:358-360 | a padded row has exactly `max_len` entries |
| `Padding.PadRowReversed` | models.py:352-356 | a reversed padded row has exactly `max_len` entries |
| `Padding.MakePaddedInputTensor` | models.py:342-360 | the input table has one row per example, each of width `max_len` |
| `Padding.MakePaddedOutputTensor` | models.py:363-371 | the output table has one row per example, each of width `max_len` |
| `Padding.PadRowIsPrefixThenPad` | models.py:358-360 | a row is the first `min(len, max_len)` ids followed by PAD ids up to `max_len`, so long sequences lose their tail |
| `Padding.PadRowReversedIsReversePrefixThenPad` | models.py:352-356 | a reversed row is the first `min(len, max_len)` ids of the reversed sequence followed by PAD ids |
| `Padding.PadRowReversedByReverse` | models.py:354 | any sequence that agrees with the back-to-front reading yields the reversed row when cut and padded |
| `Padding.PadRowReversedKeepsSuffix` | models.py:352-356 | a truncated reversed row keeps the LAST `max_len` ids, back to front |
| `Padding.PadRowRecovers` | models.py:358-360 | when the sequence fits, its ids are the row's first `len` entries and the rest are PAD |
| `Padding.PadRowReversedRecovers` | models.py:352-356 | when the sequence fits, reversing the reversed row's first `len` entries gives the ids back and the rest are PAD |
| `Padding.InputTensorRow` | models.py:358-360 | row `e` of the non-reversed input table is `x_indexed[..min]` followed by PAD ids |
| `Padding.InputTensorRowReversed` | models.py:352-356 | row `e` of the reversed input table is the reversed `x_indexed` cut to `min` entries, followed by PAD ids |
| `Padding.OutputTensorRow` | models.py:371 | row `e` of the output table is `y_indexed[..min]` followed by PAD ids |
| `Encoder.GetOutputSize` | models.py:240-241 | twice the hidden size when bidirectional, the hidden size otherwise |
| `Encoder.SentLensToMask` | models.py:243-244 | `|lens|` rows of width `max_length`; entry `[i][j]` is 1 iff `j < lens[i]` and 0 iff `j >= lens[i]` |
| `Encoder.CountOnesPrefixThenZeros` | models.py:243-244 | a run of `k` ones followed by zeros holds exactly `k` ones |
| `Encoder.MaskRowIsOnesThenZeros` | models.py:243-244 | each mask row is `min(lens[i], max_length)` ones followed by zeros |
| `Encoder.MaskRowCount` | models.py:243-244 | each mask row holds exactly `min(lens[i], max_length)` ones |
| `Encoder.ContextMask` | models.py:263-264 | the mask has one row per sequence, every row as wide as the longest sequence in the batch, with 1 exactly at the positions before the row's length |
| `Encoder.ContextMaskCountsLength` | models.py:263-264 | in the mask built with the batch's longest length, row `i` has that width and exactly `lens[i]` ones |
| `Encoder.MaskExample` | models.py:180-186 | lengths `[2, 3, 1]` at width 3 give `[[1,1,0],[1,1,1],[1,0,0]]` |
| `NearestNeighbor.TokenSet` | models.py:55 | `frozenset(tokens)` holds exactly the tokens of the sequence, no others, and has at most as many elements as the sequence has positions |
| `NearestNeighbor.Jaccard` | models.py:55-56 | the similarity of two word sets with a non-empty union lies in [0, 1] |
| `NearestNeighbor.SubsetCard` | models.py:55-56 | the intersection is no larger than the union, and equal size means equal sets |
| `NearestNeighbor.JaccardSymmetric` | models.py:55-56 | the similarity does not depend on the order of the two sets |
| `NearestNeighbor.JaccardOneIff` | models.py:55-56 | the similarity is 1 exactly when the two word sets are equal |
| `NearestNeighbor.JaccardZeroIff` | models.py:55-56 | the similarity is 0 exactly when the word sets share no word |
| `NearestNeighbor.Similarities` | models.py:52-56 | one similarity per training example, in training order: entry `j` is the Jaccard similarity of training example `j`'s word set with the test question's |
| `NearestNeighbor.Nearest` | models.py:49-59 | the retrieved example has maximal similarity and every earlier example is strictly less similar |
| `NearestNeighbor.NearestExactMatch` | models.py:49-59 | if a training question has the test question's word set, the first such example is retrieved |
| `NearestNeighbor.ScanAdvance` | models.py:49-59 | one scan step from "nothing yet, best -1" or "first maximum of the examples so far": a non-negative similarity strictly above the best replaces it, otherwise the best stays, and either way the state is the first maximum of one more example |
| `NearestNeighbor.BestTrainExample` | models.py:48-59 | the scan from `best_jaccard = -1` with strict `>` ends on exactly `Nearest` (non-empty training data, so never `None`) |
| `NearestNeighbor.Retrieved` | models.py:59-61 | the k-best list for one test example is a single Derivation of that example with probability 1.0 whose output is the gold output of some training example (the one `Nearest` picks) |
| `NearestNeighbor.Decode` | models.py:46-62 | one list per test example, in order, each exactly `Retrieved`: `[Derivation(test_ex, 1.0, y_tok of the nearest training example)]`; with no test data nothing, not even training data, is required |
| `GreedyDecoding.Next` | models.py:149 | the predicted token is a valid output-vocabulary id |
| `GreedyDecoding.Run` | models.py:144-151 | after 0 steps the decoder holds its start token and state; after any later step its token is an output-vocabulary id |
| `GreedyDecoding.RunForward` | models.py:145-151 | step `k+1` of the free-running decoder feeds back step `k`'s argmax prediction with step `k`'s new decoder state |
| `GreedyDecoding.Greedy` | models.py:144-155 | the emitted tokens number at most the step cap, never include EOS and are vocabulary ids |
| `GreedyDecoding.GreedyFollowsRun` | models.py:144-155 | token `k` is the prediction of step `k+1`, each step fed the previous prediction from SOS; unless the cap was hit, the next prediction is EOS (stops at the first EOS) |
| `GreedyDecoding.GreedyUnique` | models.py:144-155 | conversely, any sequence of non-EOS predictions from SOS that ends at the cap or right before an EOS prediction is the greedy output |
| `GreedyDecoding.GreedyLogProbSumsSteps` | models.py:144-152 | the accumulated score is the sum of `max(log_softmax)` over exactly the steps taken: one per emitted token plus the step that predicted EOS, unless the cap of 100 ended the loop |
| `GreedyDecoding.GreedyDecode` | models.py:138-155 | the `while` loop with counter, EOS test and cap 100 returns exactly `Greedy` from SOS, and its accumulated score is `GreedyLogProb` |
| `Seq2Seq.Symbols` | models.py:157 | `get_object` gives one symbol per id, and with an injective indexer each symbol's `index_of` is the id it came from |
| `Seq2Seq.PredictedIds` | models.py:144-155 | the ids the loop emits number at most 100, never include the EOS id, and are output-vocabulary ids |
| `Seq2Seq.Prediction` | models.py:157-158 | the Derivation keeps its example, and its symbols are, position by position, the output indexer's symbols of the emitted ids |
| `Seq2Seq.PredictionShape` | models.py:144-158 | a prediction keeps its example, has at most 100 symbols and never contains the `<EOS>` symbol |
| `Seq2Seq.Decode` | models.py:120-160 | one list per test example, in order, each `[Prediction(ex)]`: greedy ids mapped to symbols, probability `exp` of the accumulated score |
| `Seq2Seq.RowStateIgnoresPadding` | models.py:105-108 | restates the assumed packing behaviour (see "## Left out"): a row's decoder start state depends only on its first `inp_lens[b]` ids, so rows that differ only in padding start the same |
| `Seq2Seq.RowTerms` | models.py:107-114 | a row with `out_len` steps yields exactly `out_len` loss terms |
| `Seq2Seq.BatchTerms` | models.py:103-114 | the first `b` rows yield exactly `Σ out_lens[..b]` loss terms |
| `Seq2Seq.Losses` | models.py:114-115 | one loss per appended term, in the order of `iter_loss` |
| `Seq2Seq.Forward` | models.py:84-117 | the nested loops append exactly `BatchTerms` row by row, and the batch loss is the sum of their losses |
| `Seq2Seq.RowSchedule` | models.py:104-113 | at step `i` of a row the fed token is the start token when `i = 0`, else gold `y[i-1]`; the target is gold `y[i]` |
| `Seq2Seq.BatchTermAt` | models.py:103-114 | row `r`'s terms sit, in step order, right after the `Σ out_lens[..r]` terms of earlier rows |
| `Seq2Seq.TeacherForcingSchedule` | models.py:98-114 | row `r` contributes exactly `out_lens[r]` terms: step `i` is fed SOS at `i = 0` and `y[r][i-1]` after, and is scored against `y[r][i]`; positions `>= out_lens[r]` never occur |
| `Training.XLengths` | models.py:430 | one true input length per example |
| `Training.YLengths` | models.py:431 | one true output length per example |
| `Training.Select` | models.py:435-436 | a minibatch is the chosen rows of the whole-data tensors, in the chosen order |
| `Training.MakeBatch` | models.py:385-436 | a minibatch has one row of each tensor per chosen example, the lengths are those examples' true input and output lengths, and every row is as wide as the longest training input or output |
| `Training.BatchRowsAreExamples` | models.py:385-395 | every minibatch meets `forward`'s shape needs, and its rows cut to their true lengths are exactly the examples' input and output ids |
| `Training.TrainingTargetsAreGold` | models.py:446-452 | in training, row `r`'s step `i` is fed SOS or `y_indexed[i-1]` and targets `y_indexed[i]`, for exactly `len(y_indexed)` steps, so no padded position is ever a target |
| `Training.TrainingEncoderSeesExample` | models.py:385-388 | the encoder of each minibatch row sees exactly that example's input ids, with no padding |
| `Training.MaskMarksRealTokens` | models.py:243-244 | where the mask is 1 the padded input row holds the example's id, and where it is 0 it holds PAD |

## Left out

- `EmbeddingLayer`, `RNNEncoder.forward`'s LSTM and bidirectional reduction, `RNNDecoder` and `RNNAttentionDecoder` (models.py:195-335). These are float tensor numerics and torch calls. They appear only as the abstract `encode` and `step` functions. Packing is assumed: a row's encoder state depends only on its real ids (`xs[b][..inpLens[b]]`).
- Log-probability arithmetic and `np.exp` (models.py:148, 158). These are floats. The model keeps them as the abstract `logProbOf` and `expOf`. The accumulation itself (one term per step, including the EOS step) is modelled exactly in `GreedyLogProb`.
- Dropout and train/eval mode (models.py:72-73, 207, 217, 441-444). `EmbeddingLayer` applies dropout with rate 0.2, the training loop switches every module to train mode, and models.py never calls `eval()`. The model treats `encode` and `step` as fixed deterministic functions shared by training and decoding, so it does not capture the randomness dropout adds to either.
- `CrossEntropyLoss`, `backward` and the Adam optimizer (models.py:82, 113, 423-456). These are floats and autograd. The loss is the abstract `lossOf`, and no parameter update is modelled.
- The `DataLoader` with `shuffle=True` and worker processes (models.py:436). These involve randomness and concurrency. A minibatch is any selection of rows (`Training.Select`).
- Timing, printing and the `print_dataset` branch (models.py:397-400, 439, 458-460). These are I/O.
- `add_models_args` (models.py:14-25). This is command-line registration.
- `encode_input` (models.py:165-192). It only calls the left-out layers.
- The internals of `Indexer`, `Example`, `Derivation` and the logical-form evaluator. utils.py and data.py are not part of this model. The text of the PAD symbol is taken as `<PAD>`; only its difference from `<SOS>` and `<EOS>` matters.
- `NearestNeighbor.Jaccard`: keeps the source's unguarded division. An empty union, where the source raises a division error, is a precondition; no error result is modelled.
- `NearestNeighbor.Decode`: requires non-empty training data whenever there is test data. With `training_data == []` the source leaves `best_train_ex = None` and raises `AttributeError` at models.py:61; no error result is modelled.
- `NearestNeighbor.BestTrainExample`: requires non-empty training data, for the same reason (the `AttributeError` at models.py:61); no error result is modelled.
- `Training.MakeBatch`: requires non-empty training data (through `SeqUtil.MaxOf`). On empty training data `np.max` of an empty array raises `ValueError` at models.py:385; no error result is modelled.
- `NearestNeighbor.Similarities`: the similarity is an exact rational, while models.py:56 divides in Python `float`; float rounding of the ratio is not modelled. It does not change which example is chosen: the division of two small integers is correctly rounded and rounding is monotone, so equal ratios give equal floats and a strictly larger ratio never gives a smaller float; and two different ratios with unions of at most N words differ by at least 1/N², more than double-precision spacing for any N below about 10^7, so they also stay different.
- `Seq2Seq.Forward`: requires every true length to be at most its row's width and `batch_size` to be at most the number of rows. The source would raise an index error otherwise, and no error path is modelled.
