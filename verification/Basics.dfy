/** Small definitions that several modules share. */
module Basics {
  datatype Option<T> = None | Some(value: T)

  function Min(a: nat, b: nat): nat { if a < b then a else b }

  function Unit(b: bool): nat { if b then 1 else 0 }

  /** The order of measures that weigh a first count above a second one bounded by n. */
  lemma RankOrder(a: nat, a': nat, n: nat, w: nat, w': nat)
    requires a' < a && w' < n
    ensures a' * n + w' < a * n + w
  {
    var d := a - a' - 1;
    assert d * n >= 0;
    assert (a' + 1 + d) * n == a' * n + n + d * n;
  }
}
