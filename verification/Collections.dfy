/** Sizes of maps, and least elements of sets. */
module Collections {
  lemma RemoveSize<T, U>(m: map<T, U>, t: T)
    requires t in m
    ensures |m - {t}| == |m| - 1
  {
    assert (m - {t}).Keys == m.Keys - {t};
    assert m.Keys == (m - {t}).Keys + {t};
  }

  lemma ReplaceSize<T, U>(m: map<T, U>, t: T, u: U)
    ensures |m[t := u]| == if t in m then |m| else |m| + 1
  {
    assert m[t := u].Keys == m.Keys + {t};
  }

  lemma SubsetSize<T>(a: set<T>, b: set<T>)
    requires a <= b
    ensures |a| <= |b|
  {
    assert b == a + (b - a);
  }

  /** Some element has the least key. */
  lemma {:induction false} LeastBy<T(!new)>(s: set<T>, key: T -> int) returns (m: T)
    requires s != {}
    ensures m in s && forall x :: x in s ==> key(m) <= key(x)
    decreases |s|
  {
    m :| m in s;
    if s != {m} {
      assert s - {m} != {};
      var n := LeastBy(s - {m}, key);
      assert forall x :: x in s ==> x == m || x in s - {m};
      if key(n) < key(m) {
        m := n;
      }
    }
  }
}
