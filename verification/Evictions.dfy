/** Eviction by age on plain sets, without the rest of the presence table. */
module Evictions {
  lemma SubsetSize<T>(a: set<T>, b: set<T>)
    requires a <= b
    ensures |a| <= |b|
    ensures |a| == |b| ==> a == b
  {
    var rest := b - a;
    assert b == a + rest;
    assert |b| == |a| + |rest|;
    if |a| == |b| {
      assert rest == {};
    }
  }

  ghost predicate Distinct<T(!new)>(a: set<T>, age: map<T, real>)
    requires a <= age.Keys
  {
    forall x, y :: x in a && y in a && x != y ==> age[x] != age[y]
  }

  ghost predicate Older<T(!new)>(a: set<T>, b: set<T>, age: map<T, real>)
    requires a <= age.Keys && b <= age.Keys
  {
    forall x, y :: x in a && y in b ==> age[x] < age[y]
  }

  /** Of `before`, `after` is what stays when evictable elements go, oldest first, until at most
      `max` are left. */
  ghost predicate Evicted<T(!new)>(before: set<T>, after: set<T>, evictable: set<T>, age: map<T, real>, max: nat)
    requires before <= age.Keys
  {
    && after <= before
    && before - after <= evictable
    && (forall n, m :: n in before && n !in after && m in after && m in evictable ==> age[n] <= age[m])
    && (|after| <= max || after !! evictable)
    && (after != before ==> |after| >= max)
  }

  /** Evictions by age are nested: if b lost n and a kept it, a kept whatever b kept. */
  lemma Nested<T(!new)>(a: set<T>, a': set<T>, b: set<T>, b': set<T>, ev: set<T>, age: map<T, real>, max: nat, n: T,
                 m: T)
    requires a + b <= age.Keys
    requires Distinct(age.Keys, age)
    requires Evicted(a, a', ev, age, max) && Evicted(b, b', ev, age, max)
    requires n in b && n !in b' && n in a'
    requires m in b' && m in a
    ensures m in a'
  {
    assert n in b - b';
    assert m in a' || m in a - a';
  }

  lemma SameFate<T(!new)>(a: set<T>, a': set<T>, b: set<T>, b': set<T>, ev: set<T>, age: map<T, real>, max: nat, n: T)
    requires b <= a == age.Keys && a - b <= ev
    requires Distinct(a, age) && Older(a - b, b * ev, age)
    requires Evicted(a, a', ev, age, max) && Evicted(b, b', ev, age, max)
    requires n in b
    ensures n in a' <==> n in b'
  {
    if n in a' && n !in b' {
      forall m | m in b'
        ensures m in a'
      {
        Nested(a, a', b, b', ev, age, max, n, m);
      }
      SubsetSize(b' + {n}, a');
    }
    if n !in a' && n in b' {
      forall m | m in a'
        ensures m in b'
      {
        assert n in a - a';
        assert m in b || m in a - b;
        if m in b {
          Nested(b, b', a, a', ev, age, max, n, m);
        }
      }
      SubsetSize(a' + {n}, b');
    }
  }

  /** Evicting from a larger set that holds only older evictable extras takes the same ones. */
  lemma SameEvictions<T(!new)>(a: set<T>, a': set<T>, b: set<T>, b': set<T>, ev: set<T>, age: map<T, real>, max: nat)
    requires b <= a == age.Keys && a - b <= ev
    requires Distinct(a, age) && Older(a - b, b * ev, age)
    requires Evicted(a, a', ev, age, max) && Evicted(b, b', ev, age, max)
    ensures a' * b == b'
  {
    forall n | n in b
      ensures n in a' <==> n in b'
    {
      SameFate(a, a', b, b', ev, age, max, n);
    }
  }
}
