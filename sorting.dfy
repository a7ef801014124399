/** Python's `list.sort(key=k, reverse=True)`: a stable sort, descending by
    key. Python keeps elements with equal keys in their original order also
    when `reverse=True`, and so does `SortDesc`. */
module Sorting {

  /** Non-increasing in `key` across the whole list. */
  predicate NonIncreasing<T>(s: seq<T>, key: T -> int) {
    forall i, j :: 0 <= i < j < |s| ==> key(s[i]) >= key(s[j])
  }

  /** The elements whose key is `k`, in their order in `s`. */
  function WithKey<T>(s: seq<T>, key: T -> int, k: int): seq<T> {
    if s == [] then []
    else (if key(s[0]) == k then [s[0]] else []) + WithKey(s[1..], key, k)
  }

  /** Inserts `x` before the first element whose key is not larger than its own. */
  function Insert<T>(x: T, t: seq<T>, key: T -> int): (r: seq<T>)
    ensures |r| == |t| + 1
    ensures multiset(r) == multiset(t) + multiset{x}
  {
    if t == [] || key(x) >= key(t[0]) then [x] + t
    else
      var r := [t[0]] + Insert(x, t[1..], key);
      assert t == [t[0]] + t[1..];
      r
  }

  /** Insertion sort, taking the elements front to back. */
  function SortDesc<T>(s: seq<T>, key: T -> int): (r: seq<T>)
    ensures |r| == |s|
  {
    if s == [] then [] else Insert(s[0], SortDesc(s[1..], key), key)
  }

  /** The sort rearranges the elements and nothing else. */
  lemma {:induction false} SortDescPerm<T>(s: seq<T>, key: T -> int)
    ensures multiset(SortDesc(s, key)) == multiset(s)
  {
    if s != [] {
      SortDescPerm(s[1..], key);
      assert s == [s[0]] + s[1..];
    }
  }

  lemma {:induction false} InsertSorted<T>(x: T, t: seq<T>, key: T -> int)
    requires NonIncreasing(t, key)
    ensures NonIncreasing(Insert(x, t, key), key)
  {
    if t != [] && key(x) < key(t[0]) {
      InsertSorted(x, t[1..], key);
      var u := Insert(x, t[1..], key);
      forall i | 0 <= i < |u| ensures key(t[0]) >= key(u[i]) {
        assert u[i] in multiset(u);
        if u[i] != x {
          assert u[i] in multiset(t[1..]);
          var k :| 0 <= k < |t[1..]| && t[1..][k] == u[i];
          assert t[k + 1] == u[i];
        }
      }
      assert ([t[0]] + u)[1..] == u;
    }
  }

  lemma {:induction false} InsertWithKey<T>(x: T, t: seq<T>, key: T -> int, k: int)
    ensures WithKey(Insert(x, t, key), key, k) ==
            (if key(x) == k then [x] else []) + WithKey(t, key, k)
  {
    if t != [] && key(x) < key(t[0]) {
      InsertWithKey(x, t[1..], key, k);
      var u := Insert(x, t[1..], key);
      assert ([t[0]] + u)[1..] == u;
      if key(t[0]) == k {
        assert key(x) != k;
      }
    } else {
      assert ([x] + t)[1..] == t;
    }
  }

  /** The sort puts the list in descending key order. */
  lemma {:induction false} SortDescSorted<T>(s: seq<T>, key: T -> int)
    ensures NonIncreasing(SortDesc(s, key), key)
  {
    if s != [] {
      SortDescSorted(s[1..], key);
      InsertSorted(s[0], SortDesc(s[1..], key), key);
    }
  }

  /** The sort is stable: for every key, the elements with that key keep
      their relative order. */
  lemma {:induction false} SortDescStable<T>(s: seq<T>, key: T -> int, k: int)
    ensures WithKey(SortDesc(s, key), key, k) == WithKey(s, key, k)
  {
    if s != [] {
      SortDescStable(s[1..], key, k);
      InsertWithKey(s[0], SortDesc(s[1..], key), key, k);
    }
  }

  /** Everything Python promises of `sorted(s, key=key, reverse=True)`. */
  lemma SortDescSpec<T>(s: seq<T>, key: T -> int)
    ensures NonIncreasing(SortDesc(s, key), key)
    ensures multiset(SortDesc(s, key)) == multiset(s)
    ensures forall k :: WithKey(SortDesc(s, key), key, k) == WithKey(s, key, k)
  {
    SortDescSorted(s, key);
    SortDescPerm(s, key);
    forall k ensures WithKey(SortDesc(s, key), key, k) == WithKey(s, key, k) {
      SortDescStable(s, key, k);
    }
  }

  /** A non-increasing list that holds, key by key, the same elements in the
      same order as `s` is the sorted `s`: the three properties above pin the
      result down. */
  lemma {:induction false} SortDescUnique<T>(s: seq<T>, r: seq<T>, key: T -> int)
    requires NonIncreasing(r, key)
    requires forall k :: WithKey(r, key, k) == WithKey(s, key, k)
    ensures r == SortDesc(s, key)
  {
    var q := SortDesc(s, key);
    SortDescSpec(s, key);
    SameKeysUnique(r, q, key);
  }

  lemma {:induction false} WithKeyLength<T>(s: seq<T>, key: T -> int, k: int)
    ensures |WithKey(s, key, k)| <= |s|
    ensures (exists i :: 0 <= i < |s| && key(s[i]) == k) ==> |WithKey(s, key, k)| > 0
  {
    if s != [] {
      WithKeyLength(s[1..], key, k);
      if exists i :: 0 <= i < |s| && key(s[i]) == k {
        var i :| 0 <= i < |s| && key(s[i]) == k;
        if i > 0 {
          assert key(s[1..][i - 1]) == k;
        }
      }
    }
  }

  /** The first element leads the elements that share its key. */
  lemma {:induction false} WithKeyHead<T>(s: seq<T>, key: T -> int)
    requires s != []
    ensures WithKey(s, key, key(s[0])) != [] && WithKey(s, key, key(s[0]))[0] == s[0]
  {
  }

  lemma {:induction false} WithKeyTail<T>(s: seq<T>, key: T -> int, k: int)
    requires s != []
    ensures key(s[0]) == k ==> WithKey(s[1..], key, k) == WithKey(s, key, k)[1..]
    ensures key(s[0]) != k ==> WithKey(s[1..], key, k) == WithKey(s, key, k)
  {
  }

  lemma {:induction false} SameKeysUnique<T>(r: seq<T>, q: seq<T>, key: T -> int)
    requires NonIncreasing(r, key) && NonIncreasing(q, key)
    requires forall k :: WithKey(r, key, k) == WithKey(q, key, k)
    ensures r == q
    decreases |r| + |q|
  {
    if r == [] && q != [] {
      WithKeyHead(q, key);
    } else if r != [] && q == [] {
      WithKeyHead(r, key);
    } else if r != [] && q != [] {
      var a, b := key(r[0]), key(q[0]);
      // Both lists start with their largest key; the two largest keys agree.
      assert a == b by {
        if a > b {
          WithKeyLength(r, key, a);
          NoLargerKey(q, key, a);
        } else if b > a {
          WithKeyLength(q, key, b);
          NoLargerKey(r, key, b);
        }
      }
      WithKeyHead(r, key);
      WithKeyHead(q, key);
      assert r[0] == q[0];
      forall k ensures WithKey(r[1..], key, k) == WithKey(q[1..], key, k) {
        WithKeyTail(r, key, k);
        WithKeyTail(q, key, k);
      }
      SameKeysUnique(r[1..], q[1..], key);
      assert r == [r[0]] + r[1..] && q == [q[0]] + q[1..];
    }
  }

  /** A non-increasing list whose first key is below `k` has no element with key `k`. */
  lemma {:induction false} NoLargerKey<T>(s: seq<T>, key: T -> int, k: int)
    requires s != [] && NonIncreasing(s, key) && key(s[0]) < k
    ensures WithKey(s, key, k) == []
  {
    if |s| > 1 {
      NoLargerKey(s[1..], key, k);
    }
  }
}
