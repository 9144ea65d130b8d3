/** What several components share: optional values and plain sequences. */
module Common {

  datatype Option<+T> = None | Some(value: T)

  predicate Distinct<T(==)>(s: seq<T>) {
    forall i, j :: 0 <= i < j < |s| ==> s[i] != s[j]
  }

  /** The numbers from `lo` on, `n` of them. */
  function Ids(lo: nat, n: nat): (r: seq<nat>)
    ensures |r| == n && forall k :: 0 <= k < n ==> r[k] == lo + k
  {
    seq(n, k requires 0 <= k < n => lo + k)
  }

  lemma {:induction false} IdsOnce(n: nat, x: nat)
    ensures multiset(Ids(0, n))[x] == (if x < n then 1 else 0)
  {
    if n > 0 {
      IdsOnce(n - 1, x);
      assert Ids(0, n) == Ids(0, n - 1) + [n - 1];
    } else {
      assert Ids(0, 0) == [];
    }
  }
}
