/** Grouping a sequence by a key, as the code does with an object used as a
    dictionary (`groups[key] = groups[key] || []; groups[key].push(x)`):
    the distinct keys in order of first appearance, and each key's group
    in sequence order. */
module Grouping {
  import opened Lists

  /** The distinct keys of `s`, in order of first appearance. */
  function Keys<T, K(==)>(s: seq<T>, key: T -> K): (ks: seq<K>)
    ensures forall i :: 0 <= i < |s| ==> key(s[i]) in ks
    ensures forall i :: 0 <= i < |ks| ==> exists j :: 0 <= j < |s| && key(s[j]) == ks[i]
    ensures forall i, j :: 0 <= i < j < |ks| ==> ks[i] != ks[j]
    ensures |ks| <= |s|
    decreases |s|
  {
    if |s| == 0 then []
    else
      var init := s[..|s| - 1];
      var ks := Keys(init, key);
      assert forall i :: 0 <= i < |init| ==> s[i] == init[i];
      var k := key(s[|s| - 1]);
      if k in ks then ks else ks + [k]
  }

  function HasKey<T, K(==)>(key: T -> K, k: K): T -> bool {
    x => key(x) == k
  }

  function KeyAmong<T, K(==)>(key: T -> K, ks: seq<K>): T -> bool {
    x => key(x) in ks
  }

  /** The members of `s` whose key is `k`, in order. */
  function Group<T(==), K(==)>(s: seq<T>, key: T -> K, k: K): (g: seq<T>)
    ensures forall i :: 0 <= i < |g| ==> key(g[i]) == k && g[i] in s
  {
    Filter(s, HasKey(key, k))
  }

  /** The size of each key's group. */
  function GroupSize<T(==), K(==)>(s: seq<T>, key: T -> K): K -> int {
    k => |Group(s, key, k)|
  }

  // ---------------------------------------------------------------------
  // Filters with two disjoint predicates

  lemma {:induction false} FilterExt<T>(s: seq<T>, p: T -> bool, q: T -> bool)
    requires forall i :: 0 <= i < |s| ==> p(s[i]) == q(s[i])
    ensures Filter(s, p) == Filter(s, q)
    decreases |s|
  {
    if |s| > 0 {
      assert forall i :: 0 <= i < |s[1..]| ==> s[1..][i] == s[i + 1];
      FilterExt(s[1..], p, q);
    }
  }

  /** Counting the members satisfying one of two exclusive predicates is
      adding the two counts. */
  lemma {:induction false} CountDisjoint<T>(s: seq<T>, p: T -> bool, q: T -> bool, both: T -> bool)
    requires forall i :: 0 <= i < |s| ==> !(p(s[i]) && q(s[i])) && (both(s[i]) == (p(s[i]) || q(s[i])))
    ensures |Filter(s, both)| == |Filter(s, p)| + |Filter(s, q)|
    decreases |s|
  {
    if |s| > 0 {
      assert forall i :: 0 <= i < |s[1..]| ==> s[1..][i] == s[i + 1];
      CountDisjoint(s[1..], p, q, both);
    }
  }

  // ---------------------------------------------------------------------
  // Group sizes add up

  /** Over distinct keys, the group sizes add up to the number of members
      whose key is one of them. */
  lemma {:induction false} GroupSizesOver<T, K>(s: seq<T>, key: T -> K, ks: seq<K>)
    requires forall i, j :: 0 <= i < j < |ks| ==> ks[i] != ks[j]
    ensures Sum(ks, GroupSize(s, key)) == |Filter(s, KeyAmong(key, ks))|
    decreases |ks|
  {
    if |ks| == 0 {
      FilterNone(s, KeyAmong(key, ks));
    } else {
      var init := ks[..|ks| - 1];
      var k := ks[|ks| - 1];
      GroupSizesOver(s, key, init);
      assert forall x :: x in ks <==> x in init || x == k by {
        assert ks == init + [k];
      }
      assert k !in init;
      CountDisjoint(s, KeyAmong(key, init), HasKey(key, k), KeyAmong(key, ks));
    }
  }

  lemma {:induction false} FilterNone<T>(s: seq<T>, p: T -> bool)
    requires forall i :: 0 <= i < |s| ==> !p(s[i])
    ensures Filter(s, p) == []
    decreases |s|
  {
    if |s| > 0 {
      assert forall i :: 0 <= i < |s[1..]| ==> s[1..][i] == s[i + 1];
      FilterNone(s[1..], p);
    }
  }

  /** The groups of all keys partition the sequence: their sizes add up to
      its length. */
  lemma {:induction false} GroupSizesTotal<T, K>(s: seq<T>, key: T -> K)
    ensures Sum(Keys(s, key), GroupSize(s, key)) == |s|
  {
    var ks := Keys(s, key);
    GroupSizesOver(s, key, ks);
    FilterAll(s, KeyAmong(key, ks));
  }

  /** Every key of `s` has a non-empty group. */
  lemma {:induction false} GroupNonEmpty<T, K>(s: seq<T>, key: T -> K, k: K)
    requires k in Keys(s, key)
    ensures |Group(s, key, k)| >= 1
  {
    var i :| 0 <= i < |Keys(s, key)| && Keys(s, key)[i] == k;
    var j :| 0 <= j < |s| && key(s[j]) == k;
    assert HasKey(key, k)(s[j]);
  }

  // ---------------------------------------------------------------------
  // Sums over a filtered sequence

  /** Dropping terms that are zero does not change a sum. */
  lemma {:induction false} SumFilterZero<T>(s: seq<T>, p: T -> bool, f: T -> int)
    requires forall i :: 0 <= i < |s| && !p(s[i]) ==> f(s[i]) == 0
    ensures Sum(Filter(s, p), f) == Sum(s, f)
    decreases |s|
  {
    if |s| > 0 {
      var init := s[..|s| - 1];
      assert forall i :: 0 <= i < |init| ==> init[i] == s[i];
      SumFilterZero(init, p, f);
      SumFilterZeroStep(init, s[|s| - 1], p, f);
      InitLast(s);
    }
  }

  lemma {:induction false} SumFilterZeroStep<T>(init: seq<T>, x: T, p: T -> bool, f: T -> int)
    requires Sum(Filter(init, p), f) == Sum(init, f)
    requires !p(x) ==> f(x) == 0
    ensures Sum(Filter(init + [x], p), f) == Sum(init + [x], f)
  {
    FilterAppend(init, [x], p);
    SumAppend(Filter(init, p), Filter([x], p), f);
    SumAppend(init, [x], f);
    FilterSingle(x, p);
    SumSingle(x, f);
    assert Sum([], f) == 0;
  }

  /** Subtracting one from every term subtracts the number of terms. */
  lemma {:induction false} SumLessOne<T>(s: seq<T>, f: T -> int, g: T -> int)
    requires forall i :: 0 <= i < |s| ==> g(s[i]) == f(s[i]) - 1
    ensures Sum(s, g) == Sum(s, f) - |s|
    decreases |s|
  {
    if |s| > 0 {
      var init := s[..|s| - 1];
      assert forall i :: 0 <= i < |init| ==> init[i] == s[i];
      SumLessOne(init, f, g);
    }
  }

  // ---------------------------------------------------------------------
  // Distinct keys

  /** No two members of `s` share a key. */
  predicate Injective<T, K(==)>(s: seq<T>, key: T -> K) {
    forall i, j :: 0 <= i < j < |s| ==> key(s[i]) != key(s[j])
  }

  /** There are as many keys as members exactly when no two members share
      a key. */
  lemma {:induction false} KeysDistinct<T, K>(s: seq<T>, key: T -> K)
    ensures |Keys(s, key)| == |s| <==> Injective(s, key)
    decreases |s|
  {
    if |s| > 0 {
      var init := s[..|s| - 1];
      KeysDistinct(init, key);
      KeysStep(s, key);
      InjectiveStep(s, key);
    }
  }

  /** The last member adds a key exactly when no earlier member has it. */
  lemma {:induction false} KeysStep<T, K>(s: seq<T>, key: T -> K)
    requires |s| > 0
    ensures var init := s[..|s| - 1];
      |Keys(s, key)| == |Keys(init, key)| + (if key(s[|s| - 1]) in Keys(init, key) then 0 else 1)
    ensures var init := s[..|s| - 1];
      key(s[|s| - 1]) in Keys(init, key) <==> exists j :: 0 <= j < |init| && key(init[j]) == key(s[|s| - 1])
  {
    var init := s[..|s| - 1];
    var ks := Keys(init, key);
    var k := key(s[|s| - 1]);
    if k in ks {
      var i :| 0 <= i < |ks| && ks[i] == k;
    }
  }

  /** No two members share a key exactly when no two earlier ones do and
      the last shares its key with none of them. */
  lemma {:induction false} InjectiveStep<T, K>(s: seq<T>, key: T -> K)
    requires |s| > 0
    ensures var init := s[..|s| - 1];
      Injective(s, key) <==>
        Injective(init, key) && forall j :: 0 <= j < |init| ==> key(init[j]) != key(s[|s| - 1])
  {
    var init := s[..|s| - 1];
    assert forall i :: 0 <= i < |init| ==> init[i] == s[i];
    if Injective(init, key) && forall j :: 0 <= j < |init| ==> key(init[j]) != key(s[|s| - 1]) {
      forall i, j | 0 <= i < j < |s|
        ensures key(s[i]) != key(s[j])
      {
        if j < |s| - 1 {
          assert key(init[i]) != key(init[j]);
        } else {
          assert key(init[i]) != key(s[|s| - 1]);
        }
      }
    }
  }

  /** A filter of a sequence without shared keys has none either. */
  lemma {:induction false} FilterInjective<T, K>(s: seq<T>, p: T -> bool, key: T -> K)
    requires Injective(s, key)
    ensures Injective(Filter(s, p), key)
    decreases |s|
  {
    if |s| > 0 {
      assert forall i :: 0 <= i < |s[1..]| ==> s[1..][i] == s[i + 1];
      FilterInjective(s[1..], p, key);
      var rest := Filter(s[1..], p);
      forall i | 0 <= i < |rest|
        ensures key(rest[i]) != key(s[0])
      {
        var j :| 0 <= j < |s[1..]| && s[1..][j] == rest[i];
        assert s[j + 1] == rest[i];
      }
    }
  }

  /** In a sequence without shared keys, a member is the only one with
      its key. */
  lemma {:induction false} CountKeyOne<T, K>(s: seq<T>, key: T -> K, x: T)
    requires Injective(s, key) && x in s
    ensures |Filter(s, HasKey(key, key(x)))| == 1
    decreases |s|
  {
    assert forall i :: 0 <= i < |s[1..]| ==> s[1..][i] == s[i + 1];
    if s[0] == x {
      FilterNone(s[1..], HasKey(key, key(x)));
    } else {
      CountKeyOne(s[1..], key, x);
    }
  }

  /** The order of two filters does not matter. */
  lemma {:induction false} FilterCommute<T>(s: seq<T>, p: T -> bool, q: T -> bool)
    ensures Filter(Filter(s, p), q) == Filter(Filter(s, q), p)
    decreases |s|
  {
    if |s| > 0 {
      FilterCommute(s[1..], p, q);
      var x := s[0];
      FilterAppend(if p(x) then [x] else [], Filter(s[1..], p), q);
      FilterAppend(if q(x) then [x] else [], Filter(s[1..], q), p);
      assert Filter([x], q) == (if q(x) then [x] else []) + Filter([x][1..], q);
      assert Filter([x], p) == (if p(x) then [x] else []) + Filter([x][1..], p);
    }
  }

  /** A sum of ones counts its terms. */
  lemma {:induction false} SumOnes<T>(s: seq<T>, f: T -> int)
    requires forall i :: 0 <= i < |s| ==> f(s[i]) == 1
    ensures Sum(s, f) == |s|
    decreases |s|
  {
    if |s| > 0 {
      var init := s[..|s| - 1];
      assert forall i :: 0 <= i < |init| ==> init[i] == s[i];
      SumOnes(init, f);
    }
  }
}
