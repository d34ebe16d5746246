// The control skeleton of greedy decoding. One neural decoder step is an
// abstract function `step` from (fed token, state) to (vocabulary scores,
// next state); the next token is the first argmax of the scores.
module GreedyDecoding {
  import opened Data
  import opened SeqUtil

  /** The hard cap on decoding steps. */
  const MaxDecodeSteps: nat := 100

  /** Every decoder step scores exactly the n symbols of the output vocabulary. */
  ghost predicate ScoresWidth<S(!new)>(step: (Id, S) -> (seq<real>, S), n: nat) {
    forall t: Id, s: S :: |step(t, s).0| == n
  }

  /** The token the decoder predicts after being fed `token` in state `st`. */
  function Next<S(!new)>(step: (Id, S) -> (seq<real>, S), n: nat, token: Id, st: S): (t: Id)
    requires n > 0 && ScoresWidth(step, n)
    ensures t < n
  {
    FirstArgMax(step(token, st).0)
  }

  /**
   * The free-running decoder: the token and state after k steps, each one fed
   * the previous step's prediction, with no stopping rule.
   */
  function Run<S(!new)>(step: (Id, S) -> (seq<real>, S), n: nat, token: Id, st: S, k: nat): (r: (Id, S))
    requires n > 0 && ScoresWidth(step, n)
    ensures k == 0 ==> r == (token, st)
    ensures k > 0 ==> r.0 < n
    decreases k
  {
    if k == 0 then (token, st)
    else Run(step, n, Next(step, n, token, st), step(token, st).1, k - 1)
  }

  /** The tokens the greedy loop emits in at most `fuel` steps, stopping before the first EOS. */
  function Greedy<S(!new)>(step: (Id, S) -> (seq<real>, S), n: nat, eos: Id, token: Id, st: S, fuel: nat): (out: seq<Id>)
    requires n > 0 && ScoresWidth(step, n)
    ensures |out| <= fuel
    ensures eos !in out
    ensures forall i :: 0 <= i < |out| ==> out[i] < n
    decreases fuel
  {
    if fuel == 0 then []
    else
      var t := Next(step, n, token, st);
      if t == eos then [] else [t] + Greedy(step, n, eos, t, step(token, st).1, fuel - 1)
  }

  /** The accumulated score of the greedy loop: one term per step taken, the step that yields EOS included. */
  function GreedyLogProb<S(!new)>(step: (Id, S) -> (seq<real>, S), n: nat, logProbOf: seq<real> -> real,
                            eos: Id, token: Id, st: S, fuel: nat): (total: real)
    requires n > 0 && ScoresWidth(step, n)
    decreases fuel
  {
    if fuel == 0 then 0.0
    else
      var lp := logProbOf(step(token, st).0);
      var t := Next(step, n, token, st);
      if t == eos then lp else lp + GreedyLogProb(step, n, logProbOf, eos, t, step(token, st).1, fuel - 1)
  }

  /** Step k + 1 of the free-running decoder is step k's prediction fed back with step k's new state. */
  lemma {:induction false} RunForward<S(!new)>(step: (Id, S) -> (seq<real>, S), n: nat, token: Id, st: S, k: nat)
    requires n > 0 && ScoresWidth(step, n)
    ensures var (t, s) := Run(step, n, token, st, k);
      Run(step, n, token, st, k + 1) == (Next(step, n, t, s), step(t, s).1)
    decreases k
  {
    if k > 0 {
      RunForward(step, n, Next(step, n, token, st), step(token, st).1, k - 1);
    }
  }

  /** Number of decoder steps the greedy loop takes: one per emitted token, plus the EOS step unless the cap stopped it. */
  function StepsTaken<S(!new)>(step: (Id, S) -> (seq<real>, S), n: nat, eos: Id, token: Id, st: S, fuel: nat): (m: nat)
    requires n > 0 && ScoresWidth(step, n)
    ensures m <= fuel
  {
    var out := Greedy(step, n, eos, token, st, fuel);
    if |out| < fuel then |out| + 1 else |out|
  }

  /** The score `logProbOf` gives step k of the free-running decoder. */
  function StepLogProb<S(!new)>(step: (Id, S) -> (seq<real>, S), n: nat, logProbOf: seq<real> -> real,
                                token: Id, st: S, k: nat): (lp: real)
    requires n > 0 && ScoresWidth(step, n)
  {
    var r := Run(step, n, token, st, k);
    logProbOf(step(r.0, r.1).0)
  }

  /** The scores of the first m steps of the free-running decoder. */
  function StepLogProbs<S(!new)>(step: (Id, S) -> (seq<real>, S), n: nat, logProbOf: seq<real> -> real,
                                 token: Id, st: S, m: nat): (lps: seq<real>)
    requires n > 0 && ScoresWidth(step, n)
    ensures |lps| == m
    ensures forall k :: 0 <= k < m ==> lps[k] == StepLogProb(step, n, logProbOf, token, st, k)
  {
    seq(m, k requires 0 <= k < m => StepLogProb(step, n, logProbOf, token, st, k))
  }

  /**
   * The accumulated score is the sum of the per-step scores of exactly the steps
   * the loop takes, read off the free-running decoder.
   */
  lemma {:induction false} GreedyLogProbSumsSteps<S(!new)>(step: (Id, S) -> (seq<real>, S), n: nat, logProbOf: seq<real> -> real,
                                                           eos: Id, token: Id, st: S, fuel: nat)
    requires n > 0 && ScoresWidth(step, n)
    ensures GreedyLogProb(step, n, logProbOf, eos, token, st, fuel)
      == SumReal(StepLogProbs(step, n, logProbOf, token, st, StepsTaken(step, n, eos, token, st, fuel)))
    decreases fuel
  {
    if fuel > 0 {
      var t := Next(step, n, token, st);
      var st' := step(token, st).1;
      var lp := logProbOf(step(token, st).0);
      var m := StepsTaken(step, n, eos, token, st, fuel);
      var lps := StepLogProbs(step, n, logProbOf, token, st, m);
      if t == eos {
        assert Greedy(step, n, eos, token, st, fuel) == [];
        assert m == 1;
        assert lps[0] == StepLogProb(step, n, logProbOf, token, st, 0) == lp;
        assert lps == [lp] + [];
        SumRealCons(lp, []);
      } else {
        GreedyLogProbSumsSteps(step, n, logProbOf, eos, t, st', fuel - 1);
        var m' := StepsTaken(step, n, eos, t, st', fuel - 1);
        assert Greedy(step, n, eos, token, st, fuel) == [t] + Greedy(step, n, eos, t, st', fuel - 1);
        assert m == m' + 1;
        var rest := StepLogProbs(step, n, logProbOf, t, st', m');
        forall k | 0 <= k < m
          ensures lps[k] == ([lp] + rest)[k]
        {
          if k > 0 {
            assert Run(step, n, token, st, k) == Run(step, n, t, st', k - 1);
            assert lps[k] == StepLogProb(step, n, logProbOf, t, st', k - 1) == rest[k - 1];
          } else {
            assert lps[0] == StepLogProb(step, n, logProbOf, token, st, 0) == lp;
          }
        }
        assert lps == [lp] + rest;
        SumRealCons(lp, rest);
      }
    }
  }

  /**
   * Each emitted token is the free-running decoder's prediction at that step
   * and is not EOS; unless the cap was reached, the next prediction is EOS.
   */
  lemma {:induction false} GreedyFollowsRun<S(!new)>(step: (Id, S) -> (seq<real>, S), n: nat, eos: Id, token: Id, st: S, fuel: nat)
    requires n > 0 && ScoresWidth(step, n)
    ensures var out := Greedy(step, n, eos, token, st, fuel);
      && (forall k :: 0 <= k < |out| ==> out[k] == Run(step, n, token, st, k + 1).0)
      && (|out| < fuel ==> Run(step, n, token, st, |out| + 1).0 == eos)
    decreases fuel
  {
    if fuel > 0 {
      var t := Next(step, n, token, st);
      var st' := step(token, st).1;
      if t != eos {
        GreedyFollowsRun(step, n, eos, t, st', fuel - 1);
        var out := Greedy(step, n, eos, token, st, fuel);
        var rest := Greedy(step, n, eos, t, st', fuel - 1);
        assert out == [t] + rest;
        forall k | 0 <= k < |out|
          ensures out[k] == Run(step, n, token, st, k + 1).0
        {
          if k > 0 {
            assert out[k] == rest[k - 1];
          }
        }
      }
    }
  }

  /**
   * Conversely, a sequence of at most `fuel` non-EOS predictions of the free-running
   * decoder that ends at the cap or right before an EOS prediction is the greedy output.
   */
  lemma {:induction false} GreedyUnique<S(!new)>(step: (Id, S) -> (seq<real>, S), n: nat, eos: Id, token: Id, st: S, fuel: nat, out: seq<Id>)
    requires n > 0 && ScoresWidth(step, n)
    requires |out| <= fuel
    requires forall k :: 0 <= k < |out| ==> out[k] == Run(step, n, token, st, k + 1).0 && out[k] != eos
    requires |out| < fuel ==> Run(step, n, token, st, |out| + 1).0 == eos
    ensures out == Greedy(step, n, eos, token, st, fuel)
    decreases fuel
  {
    if fuel > 0 && |out| > 0 {
      var t := Next(step, n, token, st);
      var st' := step(token, st).1;
      assert out[0] == t;
      var rest := out[1..];
      forall k | 0 <= k < |rest|
        ensures rest[k] == Run(step, n, t, st', k + 1).0 && rest[k] != eos
      {
        assert rest[k] == out[k + 1];
      }
      GreedyUnique(step, n, eos, t, st', fuel - 1, rest);
      assert out == [t] + rest;
    }
  }

  /**
   * One iteration of the decode loop keeps "emitted so far + what the rest of the
   * loop emits" and "score so far + the rest's score" unchanged.
   */
  lemma DecodeAdvance<S(!new)>(step: (Id, S) -> (seq<real>, S), n: nat, logProbOf: seq<real> -> real,
                               eos: Id, token: Id, st: S, fuel: nat, entryWord: seq<Id>, prob: real)
    requires n > 0 && ScoresWidth(step, n) && fuel > 0
    ensures var next := FirstArgMax(step(token, st).0);
      var prob' := prob + logProbOf(step(token, st).0);
      && (next == eos ==> entryWord == entryWord + Greedy(step, n, eos, token, st, fuel))
      && (next == eos ==> prob' == prob + GreedyLogProb(step, n, logProbOf, eos, token, st, fuel))
      && (next != eos ==> (entryWord + [next]) + Greedy(step, n, eos, next, step(token, st).1, fuel - 1)
                          == entryWord + Greedy(step, n, eos, token, st, fuel))
      && (next != eos ==> prob' + GreedyLogProb(step, n, logProbOf, eos, next, step(token, st).1, fuel - 1)
                          == prob + GreedyLogProb(step, n, logProbOf, eos, token, st, fuel))
  {
    var next := FirstArgMax(step(token, st).0);
    if next == eos {
      assert Greedy(step, n, eos, token, st, fuel) == [];
      assert entryWord + [] == entryWord;
    } else {
      var rest := Greedy(step, n, eos, next, step(token, st).1, fuel - 1);
      assert Greedy(step, n, eos, token, st, fuel) == [next] + rest;
      AppendAssoc(entryWord, next, rest);
    }
  }

  /**
   * The decode loop of `Seq2SeqSemanticParser.decode` for one example: from SOS,
   * step, accumulate the score, take the argmax, stop on EOS (not appended) or
   * after MaxDecodeSteps appended tokens.
   */
  method GreedyDecode<S(!new)>(step: (Id, S) -> (seq<real>, S), n: nat, logProbOf: seq<real> -> real,
                         sos: Id, eos: Id, st0: S) returns (entryWord: seq<Id>, prob: real)
    requires n > 0 && ScoresWidth(step, n) && sos != eos
    ensures entryWord == Greedy(step, n, eos, sos, st0, MaxDecodeSteps)
    ensures prob == GreedyLogProb(step, n, logProbOf, eos, sos, st0, MaxDecodeSteps)
  {
    ghost var goalWord := Greedy(step, n, eos, sos, st0, MaxDecodeSteps);
    ghost var goalProb := GreedyLogProb(step, n, logProbOf, eos, sos, st0, MaxDecodeSteps);
    var token := sos;
    var st := st0;
    prob := 0.0;
    var count := 0;
    entryWord := [];
    while token != eos && count < MaxDecodeSteps
      invariant count <= MaxDecodeSteps && |entryWord| == count && token != eos
      invariant entryWord + Greedy(step, n, eos, token, st, MaxDecodeSteps - count) == goalWord
      invariant prob + GreedyLogProb(step, n, logProbOf, eos, token, st, MaxDecodeSteps - count) == goalProb
      decreases MaxDecodeSteps - count
    {
      DecodeAdvance(step, n, logProbOf, eos, token, st, MaxDecodeSteps - count, entryWord, prob);
      var (scores, st') := step(token, st);
      prob := prob + logProbOf(scores);
      var next := FirstArgMax(scores);
      if next == eos {
        break;
      }
      entryWord := entryWord + [next];
      count := count + 1;
      token, st := next, st';
    }
  }
}
