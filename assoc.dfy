/** Python's insertion-ordered `dict` and `collections.Counter`, as a
    sequence of key/value pairs. Assigning to a present key changes its value
    where it stands; a new key goes at the end. */
module Assoc {
  import opened Optional

  type Dict<V> = seq<(string, V)>

  /** The keys, in insertion order. */
  function Keys<V>(d: Dict<V>): (r: seq<string>)
    ensures |r| == |d|
  {
    if d == [] then [] else [d[0].0] + Keys(d[1..])
  }

  /** `k in d` */
  predicate HasKey<V>(d: Dict<V>, k: string) {
    d != [] && (d[0].0 == k || HasKey(d[1..], k))
  }

  /** No key occurs twice, as in every Python dict. */
  predicate DistinctKeys<V>(d: Dict<V>) {
    d == [] || (!HasKey(d[1..], d[0].0) && DistinctKeys(d[1..]))
  }

  lemma {:induction false} HasKeyIsKey<V>(d: Dict<V>, k: string)
    ensures HasKey(d, k) <==> k in Keys(d)
  {
    if d != [] {
      HasKeyIsKey(d[1..], k);
    }
  }

  lemma {:induction false} HasKeyAppend<V>(d: Dict<V>, p: (string, V), k: string)
    ensures HasKey(d + [p], k) <==> HasKey(d, k) || p.0 == k
  {
    if d != [] {
      assert (d + [p])[1..] == d[1..] + [p];
      HasKeyAppend(d[1..], p, k);
    }
  }

  /** A pair appended to a dict without its key keeps the keys distinct. */
  lemma {:induction false} DistinctAppend<V>(d: Dict<V>, p: (string, V))
    ensures DistinctKeys(d + [p]) <==> DistinctKeys(d) && !HasKey(d, p.0)
  {
    if d != [] {
      assert (d + [p])[1..] == d[1..] + [p];
      DistinctAppend(d[1..], p);
      HasKeyAppend(d[1..], p, d[0].0);
    }
  }

  /** `d.get(k)`: the value of the key's only entry. */
  function Lookup<V>(d: Dict<V>, k: string): (r: Option<V>)
    ensures r.None? <==> !HasKey(d, k)
  {
    if d == [] then None
    else if d[0].0 == k then Some(d[0].1)
    else Lookup(d[1..], k)
  }

  /** Looking past the end of a dict finds the appended pair. */
  lemma {:induction false} LookupAppend<V>(d: Dict<V>, p: (string, V), k: string)
    ensures Lookup(d + [p], k) == if HasKey(d, k) then Lookup(d, k) else if p.0 == k then Some(p.1) else None
  {
    if d != [] {
      assert (d + [p])[1..] == d[1..] + [p];
      LookupAppend(d[1..], p, k);
    }
  }

  /** `d[k] = v` */
  function Put<V>(d: Dict<V>, k: string, v: V): (r: Dict<V>)
    ensures Lookup(r, k) == Some(v)
    ensures forall x :: x != k ==> Lookup(r, x) == Lookup(d, x)
  {
    if d == [] then [(k, v)]
    else if d[0].0 == k then [(k, v)] + d[1..]
    else
      var t := Put(d[1..], k, v);
      var r := [d[0]] + t;
      assert r[1..] == t;
      r
  }

  /** A present key keeps its place; a new key is appended. */
  lemma {:induction false} PutShape<V>(d: Dict<V>, k: string, v: V)
    ensures HasKey(d, k) ==> Keys(Put(d, k, v)) == Keys(d)
    ensures !HasKey(d, k) ==> Put(d, k, v) == d + [(k, v)]
  {
    if d != [] && d[0].0 != k {
      PutShape(d[1..], k, v);
      var t := Put(d[1..], k, v);
      assert Put(d, k, v) == [d[0]] + t;
      assert ([d[0]] + t)[1..] == t;
      if !HasKey(d, k) {
        assert [d[0]] + (d[1..] + [(k, v)]) == d + [(k, v)];
      }
    }
  }

  /** Assignment keeps the keys distinct. */
  lemma {:induction false} PutDistinct<V>(d: Dict<V>, k: string, v: V)
    requires DistinctKeys(d)
    ensures DistinctKeys(Put(d, k, v))
  {
    if d != [] && d[0].0 != k {
      PutDistinct(d[1..], k, v);
      var t := Put(d[1..], k, v);
      assert Put(d, k, v)[1..] == t;
      assert Lookup(t, d[0].0) == Lookup(d[1..], d[0].0);
    }
  }

  /** The value of a `Counter`: a missing key reads as 0. */
  function Get(d: Dict<int>, k: string): int {
    match Lookup(d, k)
    case None => 0
    case Some(v) => v
  }

  /** `d[k] += n` on a `Counter` (or a `defaultdict(int)`). */
  function Inc(d: Dict<int>, k: string, n: int): (r: Dict<int>)
    ensures Get(r, k) == Get(d, k) + n && HasKey(r, k)
    ensures forall x :: x != k ==> Get(r, x) == Get(d, x)
    ensures forall x :: HasKey(r, x) <==> HasKey(d, x) || x == k
  {
    var r := Put(d, k, Get(d, k) + n);
    assert forall x :: HasKey(r, x) <==> Lookup(r, x).Some?;
    r
  }

  /** Incrementing keeps the keys distinct. */
  lemma IncDistinct(d: Dict<int>, k: string, n: int)
    requires DistinctKeys(d)
    ensures DistinctKeys(Inc(d, k, n))
  {
    PutDistinct(d, k, Get(d, k) + n);
  }

  /** `sum(d.values())` */
  function Sum(d: Dict<int>): int {
    if d == [] then 0 else d[0].1 + Sum(d[1..])
  }

  lemma {:induction false} SumPut(d: Dict<int>, k: string, v: int)
    requires DistinctKeys(d)
    ensures Sum(Put(d, k, v)) == Sum(d) - Get(d, k) + v
  {
    if d != [] && d[0].0 != k {
      SumPut(d[1..], k, v);
      assert Put(d, k, v)[1..] == Put(d[1..], k, v);
    } else if d != [] {
      assert Lookup(d[1..], k).None?;
      assert Put(d, k, v)[1..] == d[1..];
    }
  }

  /** Adding `n` to one entry of a counter adds `n` to its total. */
  lemma SumInc(d: Dict<int>, k: string, n: int)
    requires DistinctKeys(d)
    ensures Sum(Inc(d, k, n)) == Sum(d) + n
  {
    SumPut(d, k, Get(d, k) + n);
  }

  /** The number of elements of `s` that satisfy `p`. */
  function CountIf<T>(s: seq<T>, p: T -> bool): (r: nat)
    ensures r <= |s|
  {
    if s == [] then 0 else CountIf(s[..|s| - 1], p) + (if p(s[|s| - 1]) then 1 else 0)
  }

  /** The sum of `f` over the elements of `s`. */
  function SumBy<T>(s: seq<T>, f: T -> int): int {
    if s == [] then 0 else SumBy(s[..|s| - 1], f) + f(s[|s| - 1])
  }

  /** `p` implies `q` elementwise, so fewer elements satisfy `p`. */
  lemma {:induction false} CountIfMono<T>(s: seq<T>, p: T -> bool, q: T -> bool)
    requires forall x :: p(x) ==> q(x)
    ensures CountIf(s, p) <= CountIf(s, q)
  {
    if s != [] {
      CountIfMono(s[..|s| - 1], p, q);
    }
  }

  lemma {:induction false} CountIfAppend<T>(a: seq<T>, b: seq<T>, p: T -> bool)
    ensures CountIf(a + b, p) == CountIf(a, p) + CountIf(b, p)
  {
    if b != [] {
      assert (a + b)[..|a + b| - 1] == a + b[..|b| - 1];
      CountIfAppend(a, b[..|b| - 1], p);
    } else {
      assert a + b == a;
    }
  }

  lemma {:induction false} SumByAppend<T>(a: seq<T>, b: seq<T>, f: T -> int)
    ensures SumBy(a + b, f) == SumBy(a, f) + SumBy(b, f)
  {
    if b != [] {
      assert (a + b)[..|a + b| - 1] == a + b[..|b| - 1];
      SumByAppend(a, b[..|b| - 1], f);
    } else {
      assert a + b == a;
    }
  }

  /** `f(x)` for every `x` of `s`, concatenated in order. */
  function FlatMap<T, U>(s: seq<T>, f: T -> seq<U>): seq<U> {
    if s == [] then [] else FlatMap(s[..|s| - 1], f) + f(s[|s| - 1])
  }

  lemma {:induction false} FlatMapAppend<T, U>(a: seq<T>, b: seq<T>, f: T -> seq<U>)
    ensures FlatMap(a + b, f) == FlatMap(a, f) + FlatMap(b, f)
  {
    if b != [] {
      assert (a + b)[..|a + b| - 1] == a + b[..|b| - 1];
      FlatMapAppend(a, b[..|b| - 1], f);
    } else {
      assert a + b == a;
    }
  }

  /** A counter fed one element at a time: each element whose `key` is
      `Some(k)` adds one to `k`; the others are skipped. */
  function Tally<T>(c: Dict<int>, s: seq<T>, key: T -> Option<string>): Dict<int> {
    if s == [] then c
    else
      var t := Tally(c, s[..|s| - 1], key);
      match key(s[|s| - 1])
      case None => t
      case Some(k) => Inc(t, k, 1)
  }

  /** The number of elements of `s` whose key is `Some(k)`. */
  function KeyCount<T>(s: seq<T>, key: T -> Option<string>, k: string): nat {
    if s == [] then 0 else KeyCount(s[..|s| - 1], key, k) + (if key(s[|s| - 1]) == Some(k) then 1 else 0)
  }

  /** The number of elements of `s` that have a key. */
  function Keyed<T>(s: seq<T>, key: T -> Option<string>): (r: nat)
    ensures r <= |s|
  {
    if s == [] then 0 else Keyed(s[..|s| - 1], key) + (if key(s[|s| - 1]).Some? then 1 else 0)
  }

  lemma {:induction false} TallyAppend<T>(c: Dict<int>, a: seq<T>, b: seq<T>, key: T -> Option<string>)
    ensures Tally(c, a + b, key) == Tally(Tally(c, a, key), b, key)
  {
    if b != [] {
      assert (a + b)[..|a + b| - 1] == a + b[..|b| - 1];
      TallyAppend(c, a, b[..|b| - 1], key);
    } else {
      assert a + b == a;
    }
  }

  /** Each key's count grows by the number of elements with that key, and
      exactly those keys are added. */
  lemma {:induction false} TallyCount<T>(c: Dict<int>, s: seq<T>, key: T -> Option<string>, k: string)
    ensures Get(Tally(c, s, key), k) == Get(c, k) + KeyCount(s, key, k)
    ensures HasKey(Tally(c, s, key), k) <==> HasKey(c, k) || KeyCount(s, key, k) > 0
  {
    if s != [] {
      TallyCount(c, s[..|s| - 1], key, k);
    }
  }

  /** Tallying keeps the keys distinct and adds one to the total per keyed element. */
  lemma {:induction false} TallySum<T>(c: Dict<int>, s: seq<T>, key: T -> Option<string>)
    requires DistinctKeys(c)
    ensures DistinctKeys(Tally(c, s, key))
    ensures Sum(Tally(c, s, key)) == Sum(c) + Keyed(s, key)
  {
    if s != [] {
      var t := Tally(c, s[..|s| - 1], key);
      TallySum(c, s[..|s| - 1], key);
      match key(s[|s| - 1])
      case None =>
      case Some(k) =>
        SumInc(t, k, 1);
        IncDistinct(t, k, 1);
    }
  }

  lemma SumByOne<T>(x: T, f: T -> int)
    ensures SumBy([x], f) == f(x)
  {
    assert [x][..0] == [];
  }

  lemma CountIfOne<T>(x: T, p: T -> bool)
    ensures CountIf([x], p) == if p(x) then 1 else 0
  {
    assert [x][..0] == [];
  }

  lemma FlatMapOne<T, U>(x: T, f: T -> seq<U>)
    ensures FlatMap([x], f) == f(x)
  {
    assert [x][..0] == [];
  }

  lemma TallyOne<T>(c: Dict<int>, x: T, key: T -> Option<string>)
    ensures Tally(c, [x], key) == match key(x) case None => c case Some(k) => Inc(c, k, 1)
  {
    assert [x][..0] == [];
  }
}
