// Sequences without repetitions, and how many different elements they have.
module Sequences {

  ghost predicate Distinct<T>(s: seq<T>) {
    forall i, j | 0 <= i < j < |s| :: s[i] != s[j]
  }

  function Elements<T>(s: seq<T>): set<T> {
    set x | x in s
  }

  /** A sequence without repetitions is as long as its set of elements is large. */
  lemma {:induction false} DistinctSize<T>(s: seq<T>)
    requires Distinct(s)
    ensures |Elements(s)| == |s|
    decreases |s|
  {
    if s != [] {
      DistinctSize(s[1..]);
      assert s == [s[0]] + s[1..];
      assert Elements(s) == {s[0]} + Elements(s[1..]);
    }
  }

  lemma SubsetSize<T>(a: set<T>, b: set<T>)
    requires a <= b
    ensures |a| <= |b|
    ensures |a| == |b| ==> a == b
  {
    assert b == a + (b - a);
  }

  /** Keys with different values are no more than the values. */
  lemma {:induction false} InjectionSize<K, V>(keys: set<K>, f: map<K, V>, values: set<V>)
    requires forall k | k in keys :: k in f && f[k] in values
    requires forall k, l | k in keys && l in keys && k != l :: f[k] != f[l]
    ensures |keys| <= |values|
    decreases |keys|
  {
    if keys != {} {
      var k :| k in keys;
      InjectionSize(keys - {k}, f, values - {f[k]});
    }
  }

  lemma {:induction false} WithoutLast<T>(s: seq<T>)
    requires Distinct(s) && s != []
    ensures var n := |s| - 1;
            s[n] in Elements(s) && Distinct(s[..n]) && Elements(s[..n]) == Elements(s) - {s[n]}
  {
    var n := |s| - 1;
    assert s == s[..n] + [s[n]];
    assert forall i | 0 <= i < n :: s[..n][i] == s[i] != s[n];
  }

  lemma {:induction false} WithNew<T>(s: seq<T>, x: T)
    requires Distinct(s) && x !in Elements(s)
    ensures Distinct(s + [x]) && Elements(s + [x]) == Elements(s) + {x}
  {
    assert forall i | 0 <= i < |s| :: s[i] in Elements(s);
  }
}
