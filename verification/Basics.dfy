/** Saturating subtraction, as the Rust durations and counters use it, the size of subsets, and least elements. */
module Basics {
  function SaturatingSub(a: nat, b: nat): nat {
    if b <= a then a - b else 0
  }

  lemma SubsetSize<T>(a: set<T>, b: set<T>)
    requires a <= b
    ensures |a| <= |b|
  {
    assert b == a + (b - a);
  }

  ghost predicate Least(keys: set<nat>, k: nat) {
    k in keys && forall j :: j in keys ==> k <= j
  }

  lemma {:induction false} LeastExists(keys: set<nat>)
    requires keys != {}
    ensures exists k :: Least(keys, k)
    decreases |keys|
  {
    var k: nat :| k in keys;
    var rest := keys - {k};
    if rest == {} {
      assert keys == {k};
      assert Least(keys, k);
    } else {
      LeastExists(rest);
      var m: nat :| Least(rest, m);
      assert keys == rest + {k};
      assert Least(keys, if k <= m then k else m);
    }
  }
}
