// The external data contracts the parser consumes and produces: token ids,
// the vocabulary indexer with its reserved symbols, examples and derivations.
module Data {

  /** A vocabulary id. Indexers hand out ids 0, 1, 2, ... */
  type Id = nat

  const PadSymbol: string := "<PAD>"
  const SosSymbol: string := "<SOS>"
  const EosSymbol: string := "<EOS>"

  /** No symbol occurs twice. */
  predicate Distinct(objs: seq<string>) {
    forall i, j :: 0 <= i < j < |objs| ==> objs[i] != objs[j]
  }

  /** Position of the first occurrence of `x` in `s`. */
  function Find(s: seq<string>, x: string): (i: nat)
    requires x in s
    ensures i < |s| && s[i] == x
    ensures x !in s[..i]
  {
    if s[0] == x then 0 else 1 + Find(s[1..], x)
  }

  /**
   * A bidirectional symbol <-> id mapping: the symbol with id i is objs[i].
   * A valid indexer is injective and holds the reserved PAD, SOS and EOS symbols.
   */
  datatype Indexer = Indexer(objs: seq<string>) {

    predicate Valid() {
      Distinct(objs) && PadSymbol in objs && SosSymbol in objs && EosSymbol in objs
    }

    /** `len(indexer)`: the vocabulary size. */
    function Size(): (n: nat)
      ensures n == |objs|
    {
      |objs|
    }

    /** `index_of(symbol)`, for a symbol the indexer holds. */
    function IndexOf(sym: string): (i: Id)
      requires sym in objs
      ensures i < |objs| && objs[i] == sym
    {
      Find(objs, sym)
    }

    /** `get_object(id)`, for an id the indexer handed out. */
    function GetObject(i: Id): (sym: string)
      requires i < |objs|
      ensures sym in objs
      ensures Valid() ==> IndexOf(sym) == i
    {
      objs[i]
    }
  }

  /** Raw and indexed input and output token sequences of one example. */
  datatype Example = Example(xTok: seq<string>, xIndexed: seq<Id>, yTok: seq<string>, yIndexed: seq<Id>)

  /** One parse hypothesis: the example, its probability and the predicted output tokens. */
  datatype Derivation = Derivation(example: Example, prob: real, yToks: seq<string>)

  /** The reserved symbols have three different ids. */
  lemma ReservedIdsDistinct(ix: Indexer)
    requires ix.Valid()
    ensures ix.IndexOf(SosSymbol) != ix.IndexOf(EosSymbol)
    ensures ix.IndexOf(PadSymbol) != ix.IndexOf(SosSymbol)
    ensures ix.IndexOf(PadSymbol) != ix.IndexOf(EosSymbol)
  {}
}
