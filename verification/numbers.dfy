/** Integer helpers shared by the schedulers: extrema and sums. */
module Numbers {

  function Max(a: int, b: int): int {
    if a >= b then a else b
  }

  function Min(a: int, b: int): int {
    if a <= b then a else b
  }

  /** One integer field of every element, in order. */
  function Column<T>(s: seq<T>, f: T -> int): (c: seq<int>)
    ensures |c| == |s| && forall i :: 0 <= i < |s| ==> c[i] == f(s[i])
  {
    seq(|s|, i requires 0 <= i < |s| => f(s[i]))
  }

  /** The positive part of an integer. */
  function Pos(x: int): nat {
    if x > 0 then x else 0
  }

  function Sum(s: seq<int>): int {
    if |s| == 0 then 0 else s[0] + Sum(s[1..])
  }

  /** Sum of the positive parts: the work still owed when negative
      entries count as nothing. */
  function PosSum(s: seq<int>): nat {
    if |s| == 0 then 0 else Pos(s[0]) + PosSum(s[1..])
  }

  /** Changing one element changes both sums by the difference. */
  lemma {:induction false} SumUpdate(s: seq<int>, j: nat, v: int)
    requires j < |s|
    ensures Sum(s[j := v]) == Sum(s) - s[j] + v
    ensures PosSum(s[j := v]) == PosSum(s) - Pos(s[j]) + Pos(v)
  {
    if j == 0 {
      assert s[j := v][1..] == s[1..];
    } else {
      assert s[j := v][1..] == s[1..][j - 1 := v];
      SumUpdate(s[1..], j - 1, v);
    }
  }

  /** A sum of non-negative elements is non-negative, and it is 0 exactly
      when every element is. */
  lemma {:induction false} SumNonNeg(s: seq<int>)
    requires forall k :: 0 <= k < |s| ==> 0 <= s[k]
    ensures 0 <= Sum(s)
    ensures Sum(s) == 0 <==> forall k :: 0 <= k < |s| ==> s[k] == 0
  {
    if |s| > 0 {
      assert forall k :: 1 <= k < |s| ==> s[k] == s[1..][k - 1];
      SumNonNeg(s[1..]);
    }
  }
}
