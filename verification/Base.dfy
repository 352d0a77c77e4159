/** Shared value types and a few facts about sets and numbers. */
module Base {
  datatype Option<+T> = None | Some(value: T)

  function OrZero(x: Option<int>): int {
    if x.Some? then x.value else 0
  }

  /** A string that is present and not empty: what the source's truth tests ask of one. */
  predicate Given(s: Option<string>) {
    s.Some? && s.value != ""
  }

  function Pow2(n: nat): (p: nat)
    ensures p >= 1
  {
    if n == 0 then 1 else 2 * Pow2(n - 1)
  }

  function MaxR(a: real, b: real): real { if a > b then a else b }

  ghost function AnyOf<T>(s: set<T>): (x: T)
    requires s != {}
    ensures x in s
  {
    var x :| x in s;
    x
  }

  lemma SubsetSize<T>(a: set<T>, b: set<T>)
    requires a <= b
    ensures |a| <= |b|
  {
    assert b == a + (b - a);
  }
}
