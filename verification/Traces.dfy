/** Runs seen as sequences of verdicts: one for each state, one for each step. */
module Traces {
  lemma {:induction false} SafeSoFar(safe: seq<bool>, ok: seq<bool>, n: nat)
    requires |safe| == |ok| + 1 && safe[0] && n <= |ok|
    requires forall k :: 0 <= k < |ok| && safe[k] ==> safe[k + 1] == ok[k]
    requires forall k :: 0 <= k < |ok| ==> ok[k]
    ensures safe[n]
  {
    if n > 0 {
      SafeSoFar(safe, ok, n - 1);
    }
  }

  /** A run that starts safe is safe throughout exactly when each of its steps is. */
  lemma SafeThroughout(safe: seq<bool>, ok: seq<bool>)
    requires |safe| == |ok| + 1 && safe[0]
    requires forall k :: 0 <= k < |ok| && safe[k] ==> safe[k + 1] == ok[k]
    ensures (forall k :: 0 <= k < |safe| ==> safe[k]) <==> (forall k :: 0 <= k < |ok| ==> ok[k])
  {
    if forall k :: 0 <= k < |ok| ==> ok[k] {
      forall k | 0 <= k < |safe|
        ensures safe[k]
      {
        SafeSoFar(safe, ok, k);
      }
    }
    if forall k :: 0 <= k < |safe| ==> safe[k] {
      forall k | 0 <= k < |ok|
        ensures ok[k]
      {
        assert safe[k] && safe[k + 1];
      }
    }
  }
}
