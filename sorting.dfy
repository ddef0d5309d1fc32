/** The charts sort with `array.sort((a, b) => key(b) - key(a))`: a stable sort,
    largest key first. This module gives that ordering as a function on sequences. */
module Sorting {

  /** Every element's key is at least that of every later element. */
  predicate Descending<T>(s: seq<T>, key: T -> real) {
    forall i, j :: 0 <= i < j < |s| ==> key(s[i]) >= key(s[j])
  }

  /** The elements whose key is `k`, in their order in `s`. */
  function WithKey<T>(s: seq<T>, key: T -> real, k: real): (r: seq<T>)
    ensures |r| <= |s|
  {
    if s == [] then []
    else (if key(s[0]) == k then [s[0]] else []) + WithKey(s[1..], key, k)
  }

  /** Puts `x` after every element of the descending `t` whose key is at least its own. */
  function Insert<T>(t: seq<T>, x: T, key: T -> real): (r: seq<T>)
    ensures |r| == |t| + 1
  {
    if t == [] then [x]
    else if key(t[0]) >= key(x) then [t[0]] + Insert(t[1..], x, key)
    else [x] + t
  }

  /** A stable sort by descending key. */
  function SortDesc<T>(s: seq<T>, key: T -> real): (r: seq<T>)
    ensures |r| == |s|
  {
    if s == [] then [] else Insert(SortDesc(s[..|s| - 1], key), s[|s| - 1], key)
  }

  lemma {:induction false} WithKeyAppend<T>(a: seq<T>, b: seq<T>, key: T -> real, k: real)
    ensures WithKey(a + b, key, k) == WithKey(a, key, k) + WithKey(b, key, k)
  {
    if a == [] {
      assert a + b == b;
    } else {
      var head := if key(a[0]) == k then [a[0]] else [];
      assert (a + b)[0] == a[0] && (a + b)[1..] == a[1..] + b;
      assert WithKey(a + b, key, k) == head + WithKey(a[1..] + b, key, k);
      WithKeyAppend(a[1..], b, key, k);
      assert WithKey(a, key, k) == head + WithKey(a[1..], key, k);
      assert head + (WithKey(a[1..], key, k) + WithKey(b, key, k))
          == (head + WithKey(a[1..], key, k)) + WithKey(b, key, k);
    }
  }

  lemma {:induction false} InsertPermutes<T>(t: seq<T>, x: T, key: T -> real)
    ensures multiset(Insert(t, x, key)) == multiset(t) + multiset{x}
  {
    if t != [] && key(t[0]) >= key(x) {
      InsertPermutes(t[1..], x, key);
      assert t == [t[0]] + t[1..];
    }
  }

  lemma {:induction false} InsertDescending<T>(t: seq<T>, x: T, key: T -> real)
    requires Descending(t, key)
    ensures Descending(Insert(t, x, key), key)
  {
    var r := Insert(t, x, key);
    if t == [] {
    } else if key(t[0]) >= key(x) {
      var rest := Insert(t[1..], x, key);
      assert r == [t[0]] + rest;
      InsertDescending(t[1..], x, key);
      InsertPermutes(t[1..], x, key);
      forall j | 0 < j < |r| ensures key(r[0]) >= key(r[j]) {
        assert r[j] in multiset(rest);
        assert r[j] == x || r[j] in t[1..];
      }
    } else {
      assert r == [x] + t;
    }
  }

  lemma WithKeyCons<T>(h: T, rest: seq<T>, key: T -> real, k: real)
    ensures WithKey([h] + rest, key, k) == (if key(h) == k then [h] else []) + WithKey(rest, key, k)
  {
    assert ([h] + rest)[0] == h && ([h] + rest)[1..] == rest;
  }

  lemma DescendingTail<T>(t: seq<T>, key: T -> real)
    requires Descending(t, key) && t != []
    ensures Descending(t[1..], key)
  {
    forall i, j | 0 <= i < j < |t| - 1 ensures key(t[1..][i]) >= key(t[1..][j]) {
      assert t[1..][i] == t[i + 1] && t[1..][j] == t[j + 1];
    }
  }

  /** The step of `InsertStable` where `x` goes after the head. */
  lemma InsertStableStep<T>(t: seq<T>, x: T, key: T -> real, k: real)
    requires t != [] && key(t[0]) >= key(x)
    requires WithKey(Insert(t[1..], x, key), key, k) == WithKey(t[1..], key, k) + (if key(x) == k then [x] else [])
    ensures WithKey(Insert(t, x, key), key, k) == WithKey(t, key, k) + (if key(x) == k then [x] else [])
  {
    var own := if key(x) == k then [x] else [];
    var head := if key(t[0]) == k then [t[0]] else [];
    var rest := Insert(t[1..], x, key);
    assert Insert(t, x, key) == [t[0]] + rest;
    WithKeyCons(t[0], rest, key, k);
    assert t == [t[0]] + t[1..];
    WithKeyCons(t[0], t[1..], key, k);
    assert head + (WithKey(t[1..], key, k) + own) == (head + WithKey(t[1..], key, k)) + own;
  }

  /** Inserting keeps the order among equal keys, with `x` last among its own key. */
  lemma {:induction false} InsertStable<T>(t: seq<T>, x: T, key: T -> real, k: real)
    requires Descending(t, key)
    ensures WithKey(Insert(t, x, key), key, k) == WithKey(t, key, k) + (if key(x) == k then [x] else [])
  {
    var own := if key(x) == k then [x] else [];
    if t == [] {
      WithKeyCons(x, [], key, k);
      assert [x] + [] == [x];
    } else if key(t[0]) >= key(x) {
      DescendingTail(t, key);
      InsertStable(t[1..], x, key, k);
      InsertStableStep(t, x, key, k);
    } else {
      WithKeyCons(x, t, key, k);
      if key(x) == k {
        NoneWithKey(t, key, k);
      }
    }
  }

  /** A descending sequence whose first key is below `k` holds no element with key `k`. */
  lemma {:induction false} NoneWithKey<T>(t: seq<T>, key: T -> real, k: real)
    requires Descending(t, key)
    requires t != [] && key(t[0]) < k
    ensures WithKey(t, key, k) == []
  {
    if |t| > 1 {
      assert Descending(t[1..], key);
      NoneWithKey(t[1..], key, k);
    }
  }

  /** The sort orders by descending key, is a permutation of its input, and is
      stable: among elements of equal key the input order survives. */
  lemma {:induction false} SortDescCorrect<T>(s: seq<T>, key: T -> real)
    ensures Descending(SortDesc(s, key), key)
    ensures multiset(SortDesc(s, key)) == multiset(s)
    ensures forall k :: WithKey(SortDesc(s, key), key, k) == WithKey(s, key, k)
  {
    if s != [] {
      var init, x := s[..|s| - 1], s[|s| - 1];
      assert s == init + [x];
      SortDescCorrect(init, key);
      InsertDescending(SortDesc(init, key), x, key);
      InsertPermutes(SortDesc(init, key), x, key);
      forall k ensures WithKey(SortDesc(s, key), key, k) == WithKey(s, key, k) {
        InsertStable(SortDesc(init, key), x, key, k);
        WithKeyAppend(init, [x], key, k);
        assert WithKey([x], key, k) == (if key(x) == k then [x] else []) + WithKey([x][1..], key, k);
      }
    }
  }

  /** Sorting keeps exactly the elements it was given. */
  lemma SortDescMembers<T>(s: seq<T>, key: T -> real, y: T)
    ensures y in SortDesc(s, key) <==> y in s
  {
    SortDescCorrect(s, key);
    assert y in SortDesc(s, key) <==> y in multiset(SortDesc(s, key));
  }

  /** A prefix of a descending sequence is descending, and none of its elements has a
      smaller key than an element after it. */
  lemma DescendingSplit<T>(s: seq<T>, key: T -> real, c: int)
    requires Descending(s, key) && 0 <= c <= |s|
    ensures Descending(s[..c], key)
    ensures forall i, j :: 0 <= i < c && 0 <= j < |s| - c ==> key(s[..c][i]) >= key(s[c..][j])
  {
    forall i, j | 0 <= i < c && 0 <= j < |s| - c ensures key(s[..c][i]) >= key(s[c..][j]) {
      assert s[..c][i] == s[i] && s[c..][j] == s[c + j];
    }
  }

  /** The first element of a descending sequence has the largest key. */
  lemma DescendingFirst<T>(s: seq<T>, key: T -> real, x: T)
    requires Descending(s, key) && x in multiset(s)
    ensures key(x) <= key(s[0])
  {
    var k :| 0 <= k < |s| && s[k] == x;
    assert k == 0 || key(s[0]) >= key(s[k]);
  }
}
