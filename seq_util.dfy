// Sequence helpers shared by the components: minimum, maximum, sums,
// reversal, constant runs and the first-maximum argmax.
module SeqUtil {

  function Min(a: int, b: int): (m: int)
    ensures m <= a && m <= b
    ensures m == a || m == b
  {
    if a <= b then a else b
  }

  /** `np.max` of a non-empty sequence of lengths. */
  function MaxOf(s: seq<nat>): (m: nat)
    requires |s| > 0
    ensures m in s
    ensures forall i :: 0 <= i < |s| ==> s[i] <= m
  {
    if |s| == 1 then s[0]
    else
      var m := MaxOf(s[1..]);
      if s[0] >= m then s[0] else m
  }

  function SumNat(s: seq<nat>): (total: nat)
  {
    if |s| == 0 then 0 else SumNat(s[..|s| - 1]) + s[|s| - 1]
  }

  function SumReal(s: seq<real>): (total: real)
  {
    if |s| == 0 then 0.0 else SumReal(s[..|s| - 1]) + s[|s| - 1]
  }

  /** The sum taken from the front: the first element plus the sum of the rest. */
  lemma {:induction false} SumRealCons(x: real, s: seq<real>)
    ensures SumReal([x] + s) == x + SumReal(s)
    decreases |s|
  {
    if |s| > 0 {
      var xs := [x] + s;
      assert xs[..|xs| - 1] == [x] + s[..|s| - 1];
      SumRealCons(x, s[..|s| - 1]);
    }
  }

  /** Appending one element and then a tail is appending both at once. */
  lemma AppendAssoc<T>(w: seq<T>, x: T, rest: seq<T>)
    ensures w + ([x] + rest) == (w + [x]) + rest
  {}

  function Repeat<T>(x: T, n: nat): (r: seq<T>)
    ensures |r| == n
    ensures forall i :: 0 <= i < n ==> r[i] == x
  {
    seq(n, _ => x)
  }

  function Reverse<T>(s: seq<T>): (r: seq<T>)
    ensures |r| == |s|
  {
    if |s| == 0 then [] else Reverse(s[1..]) + [s[0]]
  }

  lemma {:induction false} ReverseAt<T>(s: seq<T>, k: nat)
    requires k < |s|
    ensures Reverse(s)[k] == s[|s| - 1 - k]
  {
    if k < |s| - 1 {
      ReverseAt(s[1..], k);
    }
  }

  lemma ReverseReverse<T>(s: seq<T>)
    ensures Reverse(Reverse(s)) == s
  {
    forall k | 0 <= k < |s|
      ensures Reverse(Reverse(s))[k] == s[k]
    {
      ReverseAt(Reverse(s), k);
      ReverseAt(s, |s| - 1 - k);
    }
  }

  /**
   * The index of the first maximal element: `torch.argmax`, and equally a
   * left-to-right scan that replaces its candidate only on a strictly larger value.
   */
  function FirstArgMax(s: seq<real>): (k: nat)
    requires |s| > 0
    ensures k < |s|
    ensures forall j :: 0 <= j < |s| ==> s[j] <= s[k]
    ensures forall j :: 0 <= j < k ==> s[j] < s[k]
  {
    if |s| == 1 then 0
    else
      var k := FirstArgMax(s[..|s| - 1]);
      if s[|s| - 1] > s[k] then |s| - 1 else k
  }

  /** The left-to-right scan: extending the sequence replaces the argmax only on a strictly larger value. */
  lemma FirstArgMaxSnoc(s: seq<real>, i: nat)
    requires 0 < i < |s|
    ensures FirstArgMax(s[..i + 1]) == (if s[i] > s[FirstArgMax(s[..i])] then i else FirstArgMax(s[..i]))
  {
    assert s[..i + 1][..i] == s[..i];
  }

  /** The two properties of FirstArgMax determine it. */
  lemma FirstArgMaxUnique(s: seq<real>, k: nat)
    requires k < |s|
    requires forall j :: 0 <= j < |s| ==> s[j] <= s[k]
    requires forall j :: 0 <= j < k ==> s[j] < s[k]
    ensures k == FirstArgMax(s)
  {}
}
