/** Pairwise co-authorship (`ContributionFormatter._get_collaboration_analysis`):
    one walk over the tree; for every file with more than one author, every
    pair of its authors (in the order of the file's `authors` mapping) bumps a
    symmetric counter and records a shared-file entry under the key
    `"a1 & a2"`. Afterwards the pairs with `a1 < a2` are listed by count,
    largest first, and each shared-file list is sorted by size. */
module Collaboration {
  import opened Optional
  import opened PyStr
  import opened Assoc
  import opened Sorting
  import opened Tree

  /** A `shared_files` entry. */
  datatype SharedFile = SharedFile(file: string, author1Ownership: int, author2Ownership: int, size: int, commits: int)

  /** `collaboration_data` (author -> author -> count) and `shared_files`
      (pair key -> entries), both insertion-ordered. */
  datatype Collab = Collab(data: Dict<Dict<int>>, shared: Dict<seq<SharedFile>>)

  const Empty := Collab([], [])

  /** `collaboration_data[a]`, an empty row when absent. */
  function Inner(data: Dict<Dict<int>>, a: string): Dict<int> {
    match Lookup(data, a)
    case None => []
    case Some(row) => row
  }

  /** `collaboration_data[a][b]`, 0 when absent. */
  function Count(data: Dict<Dict<int>>, a: string, b: string): int {
    Get(Inner(data, a), b)
  }

  /** `collaboration_data[a][b] += 1` */
  function Bump(data: Dict<Dict<int>>, a: string, b: string): Dict<Dict<int>> {
    Put(data, a, Inc(Inner(data, a), b, 1))
  }

  /** Bumping `[a][b]` changes only the row of `a`, and enters `a`. */
  lemma BumpSpec(data: Dict<Dict<int>>, a: string, b: string, x: string)
    ensures Inner(Bump(data, a, b), x) == if x == a then Inc(Inner(data, a), b, 1) else Inner(data, x)
    ensures HasKey(Bump(data, a, b), x) <==> HasKey(data, x) || x == a
  {
  }

  /** The key of a pair in `shared_files`. */
  function PairKey(a: string, b: string): string {
    a + " & " + b
  }

  /** `shared_files[k]`, an empty list when absent. */
  function Files(shared: Dict<seq<SharedFile>>, k: string): seq<SharedFile> {
    match Lookup(shared, k)
    case None => []
    case Some(s) => s
  }

  /** `shared_files[k].append(e)` */
  function AddShared(shared: Dict<seq<SharedFile>>, k: string, e: SharedFile): Dict<seq<SharedFile>> {
    Put(shared, k, Files(shared, k) + [e])
  }

  /** Appending under `k` changes only the list of `k`. */
  lemma AddSharedSpec(shared: Dict<seq<SharedFile>>, k: string, e: SharedFile, x: string)
    ensures Files(AddShared(shared, k, e), x) == if x == k then Files(shared, k) + [e] else Files(shared, x)
  {
  }

  /** The body of the inner loop for the authors `a1` and `a2` of the file `v`. */
  function PairStep(c: Collab, v: Visit, a1: string, a2: string): Collab {
    var d := v.data;
    Collab(Bump(Bump(c.data, a1, a2), a2, a1),
           AddShared(c.shared, PairKey(a1, a2), SharedFile(v.path, Get(d.authors, a1), Get(d.authors, a2), d.sizeInBytes, d.noCommits)))
  }

  /** The pairs `(h, x)` for each `x` of `t`, in order. */
  function Fan(h: string, t: seq<string>): seq<(string, string)> {
    if t == [] then [] else Fan(h, t[..|t| - 1]) + [(h, t[|t| - 1])]
  }

  /** The pairs the nested loop visits: `for i, a1 in enumerate(ks): for a2 in ks[i+1:]`. */
  function FilePairs(ks: seq<string>): seq<(string, string)> {
    if ks == [] then [] else Fan(ks[0], ks[1..]) + FilePairs(ks[1..])
  }

  /** The inner loop applied to the pairs `ps` in turn. */
  function Apply(c: Collab, v: Visit, ps: seq<(string, string)>): Collab {
    if ps == [] then c else PairStep(Apply(c, v, ps[..|ps| - 1]), v, ps[|ps| - 1].0, ps[|ps| - 1].1)
  }

  /** The blob branch of `analyze_collaboration`. */
  function CollabVisit(c: Collab, v: Visit): Collab {
    if |v.data.authors| > 1 then Apply(c, v, FilePairs(Keys(v.data.authors))) else c
  }

  /** The state after the blob branch has run for each visit of `w` in turn. */
  function CollabAfter(c: Collab, w: seq<Visit>): Collab {
    if w == [] then c else CollabVisit(CollabAfter(c, w[..|w| - 1]), w[|w| - 1])
  }

  // ---------------------------------------------------------------------
  // The loop shape of the pairs, for the method's invariants.

  /** The pairs `(ks[i], ks[m])` for `i < m < j`: the inner loop up to `j`. */
  function Row(ks: seq<string>, i: nat, j: nat): seq<(string, string)>
    requires i < j <= |ks|
    decreases j
  {
    if j == i + 1 then [] else Row(ks, i, j - 1) + [(ks[i], ks[j - 1])]
  }

  /** The pairs of the outer loop's first `i` turns. */
  function Rows(ks: seq<string>, i: nat): seq<(string, string)>
    requires i <= |ks|
  {
    if i == 0 then [] else Rows(ks, i - 1) + Row(ks, i - 1, |ks|)
  }

  lemma RowNext(ks: seq<string>, i: nat, j: nat, next: nat)
    requires i < j < |ks| && next == j + 1
    ensures Row(ks, i, next) == Row(ks, i, j) + [(ks[i], ks[j])]
  {
  }

  lemma RowsNext(ks: seq<string>, i: nat, next: nat)
    requires i < |ks| && next == i + 1
    ensures Rows(ks, next) == Rows(ks, i) + Row(ks, i, |ks|)
  {
  }

  lemma {:induction false} RowFan(ks: seq<string>, i: nat, j: nat)
    requires i < j <= |ks|
    ensures Row(ks, i, j) == Fan(ks[i], ks[i + 1..j])
    decreases j
  {
    if j > i + 1 {
      RowFan(ks, i, j - 1);
      assert ks[i + 1..j][..j - i - 2] == ks[i + 1..j - 1];
    }
  }

  lemma {:induction false} RowsPairs(ks: seq<string>, i: nat)
    requires i <= |ks|
    ensures Rows(ks, i) + FilePairs(ks[i..]) == FilePairs(ks)
  {
    if i > 0 {
      var t, u := ks[i - 1..], ks[i..];
      RowsPairs(ks, i - 1);
      RowFan(ks, i - 1, |ks|);
      assert t[1..] == u == ks[i..|ks|];
      var fan := Fan(ks[i - 1], u);
      assert FilePairs(t) == fan + FilePairs(u);
      assert Rows(ks, i) == Rows(ks, i - 1) + fan;
      assert Rows(ks, i) + FilePairs(u) == Rows(ks, i - 1) + FilePairs(t);
    } else {
      assert ks[0..] == ks;
    }
  }

  lemma ApplySnoc(c: Collab, v: Visit, ps: seq<(string, string)>, p: (string, string))
    ensures Apply(c, v, ps + [p]) == PairStep(Apply(c, v, ps), v, p.0, p.1)
  {
    assert (ps + [p])[..|ps|] == ps;
  }

  lemma {:induction false} ApplyAppend(c: Collab, v: Visit, a: seq<(string, string)>, b: seq<(string, string)>)
    ensures Apply(c, v, a + b) == Apply(Apply(c, v, a), v, b)
  {
    if b != [] {
      assert (a + b)[..|a + b| - 1] == a + b[..|b| - 1];
      ApplyAppend(c, v, a, b[..|b| - 1]);
    } else {
      assert a + b == a;
    }
  }

  lemma {:induction false} CollabAfterAppend(c: Collab, a: seq<Visit>, b: seq<Visit>)
    ensures CollabAfter(c, a + b) == CollabAfter(CollabAfter(c, a), b)
  {
    if b != [] {
      assert (a + b)[..|a + b| - 1] == a + b[..|b| - 1];
      CollabAfterAppend(c, a, b[..|b| - 1]);
    } else {
      assert a + b == a;
    }
  }

  lemma CollabAfterOne(c: Collab, v: Visit)
    ensures CollabAfter(c, [v]) == CollabVisit(c, v)
  {
    assert [v][..0] == [];
  }

  lemma CollabAfterNothing(c: Collab)
    ensures CollabAfter(c, []) == c
  {
  }

  /** The pair ranking entry `(author1, author2, count)`. */
  datatype Pair = Pair(author1: string, author2: string, count: int)

  function PairCountKey(p: Pair): int {
    p.count
  }

  function SizeKey(e: SharedFile): int {
    e.size
  }

  /** The pairs with `a < b` of the row `collaboration_data[a]`, in row order. */
  function RowPairs(a: string, row: Dict<int>): seq<Pair> {
    if row == [] then []
    else
      var (b, n) := row[|row| - 1];
      RowPairs(a, row[..|row| - 1]) + (if StrLess(a, b) then [Pair(a, b, n)] else [])
  }

  /** `collaboration_pairs` before its sort: the rows in insertion order. */
  function PairList(data: Dict<Dict<int>>): seq<Pair> {
    if data == [] then []
    else PairList(data[..|data| - 1]) + RowPairs(data[|data| - 1].0, data[|data| - 1].1)
  }

  /** Each list of `shared_files` sorted by size, largest first. */
  function SortShared(shared: Dict<seq<SharedFile>>): (r: Dict<seq<SharedFile>>)
    ensures |r| == |shared|
    ensures forall i :: 0 <= i < |shared| ==> r[i] == (shared[i].0, SortDesc(shared[i].1, SizeKey))
  {
    seq(|shared|, i requires 0 <= i < |shared| => (shared[i].0, SortDesc(shared[i].1, SizeKey)))
  }

  /** What the analysis hands to its report: whether the section is shown
      (`collaboration_data` is non-empty), the ranked pairs, and the shared
      files of every pair key. */
  datatype Result = Result(shown: bool, pairs: seq<Pair>, shared: Dict<seq<SharedFile>>)

  /** The analysis once the walk has seen the files `w`. The shared lists
      are sorted while the report is written, which happens exactly when
      `collaboration_data` is non-empty; otherwise `shared_files` is empty
      too, so sorting them unconditionally is the same. */
  function ResultOf(w: seq<Visit>): Result {
    var c := CollabAfter(Empty, w);
    Result(c.data != [], SortDesc(PairList(c.data), PairCountKey), SortShared(c.shared))
  }

  /** The analysis for a document whose `simplifiedTree` is `root`. */
  function Analysis(root: Option<Node>): Result {
    ResultOf(WalkRoot(root))
  }

  /** The analyser: `collaboration_data` and `shared_files`, updated in place. */
  class CollaborationAnalyzer {
    var data: Dict<Dict<int>>
    var shared: Dict<seq<SharedFile>>

    function State(): Collab
      reads this
    {
      Collab(data, shared)
    }

    constructor ()
      ensures State() == Empty
    {
      data, shared := [], [];
    }

    /** The body of the inner loop. */
    method AddPair(v: Visit, author1: string, author2: string)
      modifies this
      ensures State() == PairStep(old(State()), v, author1, author2)
    {
      var row := Inner(data, author1);
      data := Put(data, author1, Inc(row, author2, 1));
      row := Inner(data, author2);
      data := Put(data, author2, Inc(row, author1, 1));
      var key := author1 + " & " + author2;
      var entry := SharedFile(v.path, Get(v.data.authors, author1), Get(v.data.authors, author2), v.data.sizeInBytes, v.data.noCommits);
      shared := Put(shared, key, Files(shared, key) + [entry]);
    }

    /** The blob branch of `analyze_collaboration`. */
    method VisitBlob(path: string, name: string, d: BlobData)
      modifies this
      ensures State() == CollabVisit(old(State()), Visit(path, name, d))
    {
      var v := Visit(path, name, d);
      if |d.authors| > 1 {
        var authors := Keys(d.authors);
        PairAll(v, authors);
        RowsPairs(authors, |authors|);
        assert authors[|authors|..] == [];
        assert Rows(authors, |authors|) + [] == Rows(authors, |authors|);
      }
    }

    /** The outer loop over the file's authors. */
    method PairAll(v: Visit, authors: seq<string>)
      modifies this
      ensures State() == Apply(old(State()), v, Rows(authors, |authors|))
    {
      ghost var c := State();
      var i := 0;
      while i < |authors|
        invariant 0 <= i <= |authors|
        invariant State() == Apply(c, v, Rows(authors, i))
      {
        PairWithLater(v, authors, i);
        ApplyAppend(c, v, Rows(authors, i), Row(authors, i, |authors|));
        ghost var prev := i;
        i := i + 1;
        RowsNext(authors, prev, i);
      }
      assert Rows(authors, i) == Rows(authors, |authors|);
    }

    /** The inner loop: `authors[i]` paired with each later author. */
    method PairWithLater(v: Visit, authors: seq<string>, i: nat)
      requires i < |authors|
      modifies this
      ensures State() == Apply(old(State()), v, Row(authors, i, |authors|))
    {
      ghost var c := State();
      var j := i + 1;
      while j < |authors|
        invariant i + 1 <= j <= |authors|
        invariant State() == Apply(c, v, Row(authors, i, j))
      {
        j := PairNext(c, v, authors, i, j);
      }
      assert Row(authors, i, j) == Row(authors, i, |authors|);
    }

    /** One turn of the inner loop: the pair `(authors[i], authors[j])`,
        then on to the next author. */
    method PairNext(ghost c: Collab, v: Visit, authors: seq<string>, i: nat, j: nat) returns (next: nat)
      requires i < j < |authors|
      requires State() == Apply(c, v, Row(authors, i, j))
      modifies this
      ensures next == j + 1
      ensures State() == Apply(c, v, Row(authors, i, next))
    {
      next := j + 1;
      RowNext(authors, i, j, next);
      ApplySnoc(c, v, Row(authors, i, j), (authors[i], authors[j]));
      AddPair(v, authors[i], authors[j]);
    }

    /** `analyze_collaboration(node, path)` */
    method Traverse(node: Node, path: string)
      modifies this
      ensures State() == CollabAfter(old(State()), Walk(node, path))
      decreases node
    {
      match node
      case Blob(name, d) =>
        CollabAfterOne(State(), Visit(path, name, d));
        VisitBlob(path, name, d);
      case Other(_) =>
        CollabAfterNothing(State());
      case Tree(_, cs) =>
        CollabAfterNothing(State());
        var i := 0;
        while i < |cs|
          invariant 0 <= i <= |cs|
          invariant State() == CollabAfter(old(State()), WalkChildren(cs[..i], path))
        {
          var child := cs[i];
          ghost var before := WalkChildren(cs[..i], path);
          Traverse(child, ChildPath(path, child.name));
          CollabAfterAppend(old(State()), before, Walk(child, ChildPath(path, child.name)));
          ghost var prev := i;
          i := i + 1;
          WalkChildrenNext(cs, path, prev, i);
        }
        assert cs[..i] == cs;
    }

    /** The loop that collects the pairs with `author1 < author2`. */
    method ListPairs() returns (pairs: seq<Pair>)
      ensures pairs == PairList(data)
    {
      pairs := [];
      var i := 0;
      while i < |data|
        invariant 0 <= i <= |data|
        invariant pairs == PairList(data[..i])
      {
        var (author1, collaborations) := data[i];
        var j := 0;
        while j < |collaborations|
          invariant 0 <= j <= |collaborations|
          invariant pairs == PairList(data[..i]) + RowPairs(author1, collaborations[..j])
        {
          var (author2, count) := collaborations[j];
          assert collaborations[..j + 1][..j] == collaborations[..j];
          if StrLess(author1, author2) {
            pairs := pairs + [Pair(author1, author2, count)];
          }
          j := j + 1;
        }
        assert collaborations[..j] == collaborations;
        assert data[..i + 1][..i] == data[..i];
        i := i + 1;
      }
      assert data[..i] == data;
    }

    /** `files.sort(key=size, reverse=True)` for every pair key. */
    method SortSharedFiles()
      modifies this
      ensures shared == SortShared(old(shared)) && data == old(data)
    {
      var i := 0;
      while i < |shared|
        invariant 0 <= i <= |shared| == |old(shared)|
        invariant data == old(data)
        invariant forall j :: 0 <= j < i ==> shared[j] == (old(shared)[j].0, SortDesc(old(shared)[j].1, SizeKey))
        invariant forall j :: i <= j < |shared| ==> shared[j] == old(shared)[j]
      {
        var (key, files) := shared[i];
        shared := shared[i := (key, SortDesc(files, SizeKey))];
        i := i + 1;
      }
    }
  }

  /** `_get_collaboration_analysis`, up to the structures it renders. */
  method AnalyzeCollaboration(root: Option<Node>) returns (res: Result)
    ensures res == Analysis(root)
  {
    var an := new CollaborationAnalyzer();
    if root.Some? {
      an.Traverse(root.value, "");
    }
    var pairs := an.ListPairs();
    pairs := SortDesc(pairs, PairCountKey);
    var shown := an.data != [];
    an.SortSharedFiles();
    res := Result(shown, pairs, an.shared);
  }
  // ---------------------------------------------------------------------
  // Reference definitions over the visited files.

  /** The file `v` has more than one author, and `a` and `b` are two
      different ones of them. */
  predicate CoAuthored(v: Visit, a: string, b: string) {
    |v.data.authors| > 1 && a != b && HasKey(v.data.authors, a) && HasKey(v.data.authors, b)
  }

  /** The number of files of `w` that `a` and `b` share. */
  function PairCount(w: seq<Visit>, a: string, b: string): nat {
    if w == [] then 0 else PairCount(w[..|w| - 1], a, b) + (if CoAuthored(w[|w| - 1], a, b) then 1 else 0)
  }

  /** The number of shared-file entries the file `v` records under the key `k`. */
  function FileKeyHits(v: Visit, k: string): nat {
    if |v.data.authors| > 1 then KeyHits(FilePairs(Keys(v.data.authors)), k) else 0
  }

  /** The number of pairs of `ps` whose key is `k`. */
  function KeyHits(ps: seq<(string, string)>, k: string): nat {
    if ps == [] then 0 else KeyHits(ps[..|ps| - 1], k) + (if PairKey(ps[|ps| - 1].0, ps[|ps| - 1].1) == k then 1 else 0)
  }

  /** The number of shared-file entries all files of `w` record under `k`. */
  function SharedTotal(w: seq<Visit>, k: string): nat {
    if w == [] then 0 else SharedTotal(w[..|w| - 1], k) + FileKeyHits(w[|w| - 1], k)
  }

  // ---------------------------------------------------------------------
  // The pairs of one file.

  /** A sequence without repetitions. */
  predicate NoRepeats(ks: seq<string>) {
    ks == [] || (ks[0] !in ks[1..] && NoRepeats(ks[1..]))
  }

  lemma {:induction false} KeysNoRepeats<V>(d: Dict<V>)
    requires DistinctKeys(d)
    ensures NoRepeats(Keys(d))
  {
    if d != [] {
      KeysNoRepeats(d[1..]);
      HasKeyIsKey(d[1..], d[0].0);
      assert Keys(d)[1..] == Keys(d[1..]);
    }
  }

  lemma {:induction false} NoRepeatsCount(ks: seq<string>, y: string)
    requires NoRepeats(ks)
    ensures multiset(ks)[y] == if y in ks then 1 else 0
  {
    if ks != [] {
      NoRepeatsCount(ks[1..], y);
      assert ks == [ks[0]] + ks[1..];
    }
  }

  lemma {:induction false} FanCount(h: string, t: seq<string>, p: (string, string))
    ensures multiset(Fan(h, t))[p] == if p.0 == h then multiset(t)[p.1] else 0
  {
    if t != [] {
      FanCount(h, t[..|t| - 1], p);
      assert t == t[..|t| - 1] + [t[|t| - 1]];
    }
  }

  /** The nested loop meets every two different authors of a file exactly
      once, in one of the two orders. */
  lemma {:induction false} FilePairsCount(ks: seq<string>, x: string, y: string)
    requires NoRepeats(ks)
    ensures multiset(FilePairs(ks))[(x, y)] + multiset(FilePairs(ks))[(y, x)] ==
            if x != y && x in ks && y in ks then 1 else 0
  {
    if ks != [] {
      var h, t := ks[0], ks[1..];
      FilePairsCount(t, x, y);
      FanCount(h, t, (x, y));
      FanCount(h, t, (y, x));
      NoRepeatsCount(t, x);
      NoRepeatsCount(t, y);
      assert ks == [h] + t;
    }
  }

  lemma FilePairsNonEmpty(ks: seq<string>)
    requires |ks| > 1
    ensures FilePairs(ks) != []
  {
    var t := ks[1..];
    assert Fan(ks[0], t) == Fan(ks[0], t[..|t| - 1]) + [(ks[0], t[|t| - 1])];
  }

  // ---------------------------------------------------------------------
  // The inner loop over a list of pairs.

  /** Every row and the table itself have distinct keys. */
  ghost predicate Tidy(data: Dict<Dict<int>>) {
    DistinctKeys(data) && forall x :: DistinctKeys(Inner(data, x))
  }

  lemma BumpTidy(data: Dict<Dict<int>>, a: string, b: string)
    requires Tidy(data)
    ensures Tidy(Bump(data, a, b))
  {
    IncDistinct(Inner(data, a), b, 1);
    PutDistinct(data, a, Inc(Inner(data, a), b, 1));
    forall x ensures DistinctKeys(Inner(Bump(data, a, b), x)) {
      BumpSpec(data, a, b, x);
    }
  }

  lemma BumpCount(data: Dict<Dict<int>>, a: string, b: string, x: string, y: string)
    ensures Count(Bump(data, a, b), x, y) == Count(data, x, y) + (if x == a && y == b then 1 else 0)
    ensures HasKey(Inner(Bump(data, a, b), x), y) <==> HasKey(Inner(data, x), y) || (x == a && y == b)
  {
    BumpSpec(data, a, b, x);
  }

  /** Each pair `(a1, a2)` adds one to `[a1][a2]` and one to `[a2][a1]`. */
  lemma {:induction false} ApplyCount(c: Collab, v: Visit, ps: seq<(string, string)>, x: string, y: string)
    ensures Count(Apply(c, v, ps).data, x, y) == Count(c.data, x, y) + multiset(ps)[(x, y)] + multiset(ps)[(y, x)]
    ensures HasKey(Inner(Apply(c, v, ps).data, x), y) <==>
            HasKey(Inner(c.data, x), y) || multiset(ps)[(x, y)] + multiset(ps)[(y, x)] > 0
  {
    if ps != [] {
      var init, p := ps[..|ps| - 1], ps[|ps| - 1];
      ApplyCount(c, v, init, x, y);
      var d0 := Apply(c, v, init).data;
      BumpCount(d0, p.0, p.1, x, y);
      BumpCount(Bump(d0, p.0, p.1), p.1, p.0, x, y);
      MultisetLast(ps, (x, y));
      MultisetLast(ps, (y, x));
    }
  }

  lemma MultisetLast<T>(ps: seq<T>, a: T)
    requires ps != []
    ensures multiset(ps)[a] == multiset(ps[..|ps| - 1])[a] + (if ps[|ps| - 1] == a then 1 else 0)
  {
    assert ps == ps[..|ps| - 1] + [ps[|ps| - 1]];
  }

  lemma {:induction false} ApplyTidy(c: Collab, v: Visit, ps: seq<(string, string)>)
    requires Tidy(c.data)
    ensures Tidy(Apply(c, v, ps).data)
  {
    if ps != [] {
      var p := ps[|ps| - 1];
      ApplyTidy(c, v, ps[..|ps| - 1]);
      var d0 := Apply(c, v, ps[..|ps| - 1]).data;
      BumpTidy(d0, p.0, p.1);
      BumpTidy(Bump(d0, p.0, p.1), p.1, p.0);
    }
  }

  lemma ApplyNonEmpty(c: Collab, v: Visit, ps: seq<(string, string)>)
    requires c.data != [] || ps != []
    ensures Apply(c, v, ps).data != []
  {
    if ps != [] {
      var p := ps[|ps| - 1];
      var d1 := Bump(Apply(c, v, ps[..|ps| - 1]).data, p.0, p.1);
      BumpSpec(d1, p.1, p.0, p.1);
    }
  }

  lemma {:induction false} ApplyShared(c: Collab, v: Visit, ps: seq<(string, string)>, k: string)
    ensures |Files(Apply(c, v, ps).shared, k)| == |Files(c.shared, k)| + KeyHits(ps, k)
  {
    if ps != [] {
      var p := ps[|ps| - 1];
      ApplyShared(c, v, ps[..|ps| - 1], k);
      var c0 := Apply(c, v, ps[..|ps| - 1]);
      AddSharedSpec(c0.shared, PairKey(p.0, p.1), SharedFile(v.path, Get(v.data.authors, p.0), Get(v.data.authors, p.1), v.data.sizeInBytes, v.data.noCommits), k);
    }
  }

  /** Without `&` in two names, their pair key is the key of no other pair. */
  lemma PairKeyInjective(a: string, b: string, x: string, y: string)
    requires '&' !in a && '&' !in b
    requires PairKey(x, y) == PairKey(a, b)
    ensures x == a && y == b
  {
    var s := PairKey(a, b);
    assert s[|x| + 1] == '&';
    assert s[|a| + 1] == '&';
    assert |x| == |a|;
    assert x == s[..|a|] == a;
    assert y == s[|a| + 3..] == b;
  }

  lemma {:induction false} KeyHitsCount(ps: seq<(string, string)>, a: string, b: string)
    requires '&' !in a && '&' !in b
    ensures KeyHits(ps, PairKey(a, b)) == multiset(ps)[(a, b)]
  {
    if ps != [] {
      var p := ps[|ps| - 1];
      KeyHitsCount(ps[..|ps| - 1], a, b);
      if PairKey(p.0, p.1) == PairKey(a, b) {
        PairKeyInjective(a, b, p.0, p.1);
      }
      assert ps == ps[..|ps| - 1] + [p];
    }
  }

  // ---------------------------------------------------------------------
  // One file, then the whole walk.

  /** One file adds one to the counters of every two of its different
      authors, when it has more than one. */
  lemma VisitSpec(c: Collab, v: Visit, x: string, y: string)
    requires WellFormedBlob(v.data)
    ensures Count(CollabVisit(c, v).data, x, y) == Count(c.data, x, y) + (if CoAuthored(v, x, y) then 1 else 0)
    ensures HasKey(Inner(CollabVisit(c, v).data, x), y) <==> HasKey(Inner(c.data, x), y) || CoAuthored(v, x, y)
    ensures Tidy(c.data) ==> Tidy(CollabVisit(c, v).data)
    ensures CollabVisit(c, v).data != [] <==> c.data != [] || |v.data.authors| > 1
  {
    if |v.data.authors| > 1 {
      var ks := Keys(v.data.authors);
      var ps := FilePairs(ks);
      KeysNoRepeats(v.data.authors);
      ApplyCount(c, v, ps, x, y);
      FilePairsCount(ks, x, y);
      HasKeyIsKey(v.data.authors, x);
      HasKeyIsKey(v.data.authors, y);
      if Tidy(c.data) {
        ApplyTidy(c, v, ps);
      }
      FilePairsNonEmpty(ks);
      ApplyNonEmpty(c, v, ps);
    }
  }

  lemma {:induction false} DataSpec(w: seq<Visit>, x: string, y: string)
    requires WellFormedVisits(w)
    ensures Count(CollabAfter(Empty, w).data, x, y) == PairCount(w, x, y)
    ensures HasKey(Inner(CollabAfter(Empty, w).data, x), y) <==> PairCount(w, x, y) > 0
    ensures Tidy(CollabAfter(Empty, w).data)
  {
    if w != [] {
      var w' := w[..|w| - 1];
      assert forall i :: 0 <= i < |w'| ==> w'[i] == w[i];
      DataSpec(w', x, y);
      VisitSpec(CollabAfter(Empty, w'), w[|w| - 1], x, y);
    }
  }

  lemma {:induction false} PairCountSymmetric(w: seq<Visit>, a: string, b: string)
    ensures PairCount(w, a, b) == PairCount(w, b, a)
  {
    if w != [] {
      PairCountSymmetric(w[..|w| - 1], a, b);
    }
  }

  /** `collaboration_data[a][b]` and `collaboration_data[b][a]` are the
      same number: the files whose `authors` list both `a` and `b` among
      more than one author. */
  lemma CountsSymmetric(w: seq<Visit>, a: string, b: string)
    requires WellFormedVisits(w)
    ensures Count(CollabAfter(Empty, w).data, a, b) == Count(CollabAfter(Empty, w).data, b, a) == PairCount(w, a, b)
  {
    DataSpec(w, a, b);
    DataSpec(w, b, a);
    PairCountSymmetric(w, a, b);
  }

  /** The section is shown exactly when some file has more than one author. */
  lemma {:induction false} ShownSpec(w: seq<Visit>)
    requires WellFormedVisits(w)
    ensures ResultOf(w).shown <==> exists i :: 0 <= i < |w| && |w[i].data.authors| > 1
  {
    if w != [] {
      var w' := w[..|w| - 1];
      assert forall i :: 0 <= i < |w'| ==> w'[i] == w[i];
      ShownSpec(w');
      VisitSpec(CollabAfter(Empty, w'), w[|w| - 1], "", "");
      if exists i :: 0 <= i < |w| && |w[i].data.authors| > 1 {
        var i :| 0 <= i < |w| && |w[i].data.authors| > 1;
        if i < |w'| {
          assert |w'[i].data.authors| > 1;
        }
      }
    }
  }

  lemma {:induction false} SharedSpec(w: seq<Visit>, k: string)
    ensures |Files(CollabAfter(Empty, w).shared, k)| == SharedTotal(w, k)
  {
    if w != [] {
      var w' := w[..|w| - 1];
      var v := w[|w| - 1];
      SharedSpec(w', k);
      if |v.data.authors| > 1 {
        ApplyShared(CollabAfter(Empty, w'), v, FilePairs(Keys(v.data.authors)), k);
      }
    }
  }

  lemma FileKeyHitsPair(v: Visit, a: string, b: string)
    requires WellFormedBlob(v.data)
    requires a != b && '&' !in a && '&' !in b
    ensures FileKeyHits(v, PairKey(a, b)) + FileKeyHits(v, PairKey(b, a)) == if CoAuthored(v, a, b) then 1 else 0
  {
    if |v.data.authors| > 1 {
      var ks := Keys(v.data.authors);
      KeysNoRepeats(v.data.authors);
      KeyHitsCount(FilePairs(ks), a, b);
      KeyHitsCount(FilePairs(ks), b, a);
      FilePairsCount(ks, a, b);
      HasKeyIsKey(v.data.authors, a);
      HasKeyIsKey(v.data.authors, b);
    }
  }

  lemma {:induction false} SharedTotalPair(w: seq<Visit>, a: string, b: string)
    requires WellFormedVisits(w)
    requires a != b && '&' !in a && '&' !in b
    ensures SharedTotal(w, PairKey(a, b)) + SharedTotal(w, PairKey(b, a)) == PairCount(w, a, b)
  {
    if w != [] {
      var w' := w[..|w| - 1];
      assert forall i :: 0 <= i < |w'| ==> w'[i] == w[i];
      SharedTotalPair(w', a, b);
      FileKeyHitsPair(w[|w| - 1], a, b);
    }
  }

  // ---------------------------------------------------------------------
  // What the shared-file lists hold.

  /** `a` comes before `b` among the keys `ks`. */
  ghost predicate Precedes(ks: seq<string>, a: string, b: string) {
    exists i, j :: 0 <= i < j < |ks| && ks[i] == a && ks[j] == b
  }

  /** The entry the file `v` records for its authors `a` and `b`. */
  function SharedEntry(v: Visit, a: string, b: string): SharedFile {
    SharedFile(v.path, Get(v.data.authors, a), Get(v.data.authors, b), v.data.sizeInBytes, v.data.noCommits)
  }

  /** The entries under `"a & b"`: one per file with more than one author
      whose `authors` mapping lists `a` before `b`, in walk order. */
  ghost function SharedOf(w: seq<Visit>, a: string, b: string): seq<SharedFile> {
    if w == [] then []
    else
      var v := w[|w| - 1];
      SharedOf(w[..|w| - 1], a, b) +
        if |v.data.authors| > 1 && Precedes(Keys(v.data.authors), a, b) then [SharedEntry(v, a, b)] else []
  }

  /** `n` copies of `e`. */
  function Repeat(e: SharedFile, n: nat): seq<SharedFile> {
    if n == 0 then [] else Repeat(e, n - 1) + [e]
  }

  /** One pair appends its entry under its own key only. */
  lemma PairStepShared(c: Collab, v: Visit, p: (string, string), a: string, b: string)
    requires '&' !in a && '&' !in b
    ensures Files(PairStep(c, v, p.0, p.1).shared, PairKey(a, b)) ==
      Files(c.shared, PairKey(a, b)) + if p == (a, b) then [SharedEntry(v, a, b)] else []
  {
    AddSharedSpec(c.shared, PairKey(p.0, p.1), SharedEntry(v, p.0, p.1), PairKey(a, b));
    if PairKey(p.0, p.1) == PairKey(a, b) {
      PairKeyInjective(a, b, p.0, p.1);
    }
  }

  /** The pairs of one file append one entry under `"a & b"` per pair `(a, b)`. */
  lemma {:induction false} ApplySharedList(c: Collab, v: Visit, ps: seq<(string, string)>, a: string, b: string)
    requires '&' !in a && '&' !in b
    ensures Files(Apply(c, v, ps).shared, PairKey(a, b)) == Files(c.shared, PairKey(a, b)) + Repeat(SharedEntry(v, a, b), multiset(ps)[(a, b)])
  {
    if ps != [] {
      var init, p := ps[..|ps| - 1], ps[|ps| - 1];
      ApplySharedList(c, v, init, a, b);
      PairStepShared(Apply(c, v, init), v, p, a, b);
      MultisetLast(ps, (a, b));
    }
  }

  /** `a` precedes `b` in `ks` when it is the head and `b` follows, or when
      it precedes `b` in the tail. */
  lemma PrecedesCons(ks: seq<string>, a: string, b: string)
    requires ks != []
    ensures Precedes(ks, a, b) <==> (a == ks[0] && b in ks[1..]) || Precedes(ks[1..], a, b)
  {
    var t := ks[1..];
    if Precedes(ks, a, b) {
      var i, j :| 0 <= i < j < |ks| && ks[i] == a && ks[j] == b;
      if i == 0 {
        assert t[j - 1] == b;
      } else {
        assert t[i - 1] == a && t[j - 1] == b;
      }
    }
    if a == ks[0] && b in t {
      var j :| 0 <= j < |t| && t[j] == b;
      assert ks[j + 1] == b;
    }
    if Precedes(t, a, b) {
      var i, j :| 0 <= i < j < |t| && t[i] == a && t[j] == b;
      assert ks[i + 1] == a && ks[j + 1] == b;
    }
  }

  /** The nested loop meets `(a, b)` once when `a` precedes `b`, else never. */
  lemma {:induction false} FilePairsPrecedes(ks: seq<string>, a: string, b: string)
    requires NoRepeats(ks)
    ensures multiset(FilePairs(ks))[(a, b)] == if Precedes(ks, a, b) then 1 else 0
  {
    if ks != [] {
      var h, t := ks[0], ks[1..];
      FilePairsPrecedes(t, a, b);
      FanCount(h, t, (a, b));
      NoRepeatsCount(t, b);
      PrecedesCons(ks, a, b);
    }
  }

  /** One file appends its entry under `"a & b"` when it lists `a` before `b`. */
  lemma VisitShared(c: Collab, v: Visit, a: string, b: string)
    requires WellFormedBlob(v.data)
    requires '&' !in a && '&' !in b
    ensures Files(CollabVisit(c, v).shared, PairKey(a, b)) == Files(c.shared, PairKey(a, b)) +
      if |v.data.authors| > 1 && Precedes(Keys(v.data.authors), a, b) then [SharedEntry(v, a, b)] else []
  {
    if |v.data.authors| > 1 {
      var ks := Keys(v.data.authors);
      KeysNoRepeats(v.data.authors);
      ApplySharedList(c, v, FilePairs(ks), a, b);
      FilePairsPrecedes(ks, a, b);
      assert Repeat(SharedEntry(v, a, b), 1) == [SharedEntry(v, a, b)];
    }
  }

  /** Before sorting, `shared_files["a & b"]` holds, for names without `&`,
      exactly one entry per file with more than one author listing `a`
      before `b`: the file's path, both ownership percentages, its size and
      its commit count, in walk order. */
  lemma {:induction false} SharedListSpec(w: seq<Visit>, a: string, b: string)
    requires WellFormedVisits(w)
    requires '&' !in a && '&' !in b
    ensures Files(CollabAfter(Empty, w).shared, PairKey(a, b)) == SharedOf(w, a, b)
  {
    if w != [] {
      var w' := w[..|w| - 1];
      assert forall i :: 0 <= i < |w'| ==> w'[i] == w[i];
      SharedListSpec(w', a, b);
      VisitShared(CollabAfter(Empty, w'), w[|w| - 1], a, b);
    }
  }

  lemma {:induction false} SortSharedLookup(shared: Dict<seq<SharedFile>>, k: string)
    ensures Files(SortShared(shared), k) == SortDesc(Files(shared, k), SizeKey)
  {
    if shared != [] {
      assert SortShared(shared)[1..] == SortShared(shared[1..]);
      SortSharedLookup(shared[1..], k);
    }
  }

  /** The entries stored under `"a & b"` and `"b & a"` (which one a file
      uses depends on the order of its `authors`) number the files the two
      share, for names without `&`; the list under `"a & b"` holds the
      entries of the files listing `a` before `b`, sorted by size, largest
      first, keeping walk order among equal sizes. */
  lemma SharedFilesSpec(w: seq<Visit>, a: string, b: string)
    requires WellFormedVisits(w)
    requires a != b && '&' !in a && '&' !in b
    ensures |Files(ResultOf(w).shared, PairKey(a, b))| + |Files(ResultOf(w).shared, PairKey(b, a))| == PairCount(w, a, b)
    ensures var s, q := Files(ResultOf(w).shared, PairKey(a, b)), SharedOf(w, a, b);
      && multiset(s) == multiset(q)
      && NonIncreasing(s, SizeKey)
      && forall k :: WithKey(s, SizeKey, k) == WithKey(q, SizeKey, k)
  {
    var sh := CollabAfter(Empty, w).shared;
    SortSharedLookup(sh, PairKey(a, b));
    SortSharedLookup(sh, PairKey(b, a));
    SharedSpec(w, PairKey(a, b));
    SharedSpec(w, PairKey(b, a));
    SharedTotalPair(w, a, b);
    SharedListSpec(w, a, b);
    SortDescSpec(Files(sh, PairKey(a, b)), SizeKey);
  }

  // ---------------------------------------------------------------------
  // The ranked pairs.

  lemma {:induction false} RowPairsCount(a: string, row: Dict<int>, t: Pair)
    requires DistinctKeys(row)
    ensures multiset(RowPairs(a, row))[t] ==
            if t.author1 == a && StrLess(a, t.author2) && HasKey(row, t.author2) && t.count == Get(row, t.author2) then 1 else 0
  {
    if row != [] {
      var init, last := row[..|row| - 1], row[|row| - 1];
      assert init + [last] == row;
      DistinctAppend(init, last);
      RowPairsCount(a, init, t);
      HasKeyAppend(init, last, t.author2);
      LookupAppend(init, last, t.author2);
    }
  }

  lemma {:induction false} PairListCount(data: Dict<Dict<int>>, t: Pair)
    requires Tidy(data)
    ensures multiset(PairList(data))[t] ==
            if StrLess(t.author1, t.author2) && HasKey(Inner(data, t.author1), t.author2) && t.count == Count(data, t.author1, t.author2) then 1 else 0
  {
    if data != [] {
      var init, last := data[..|data| - 1], data[|data| - 1];
      assert init + [last] == data;
      DistinctAppend(init, last);
      forall x ensures DistinctKeys(Inner(init, x)) {
        LookupAppend(init, last, x);
        assert DistinctKeys(Inner(data, x));
      }
      LookupAppend(init, last, t.author1);
      LookupAppend(init, last, last.0);
      assert Inner(data, last.0) == last.1;
      assert DistinctKeys(Inner(data, last.0));
      PairListCount(init, t);
      RowPairsCount(last.0, last.1, t);
    }
  }

  /** `collaboration_pairs` holds every two authors who share a file exactly
      once, the smaller name first, with the number of files they share,
      and nothing else; it is sorted by that number, largest first, keeping
      the table order among equal counts. */
  lemma PairsRanked(w: seq<Visit>, t: Pair)
    requires WellFormedVisits(w)
    ensures multiset(ResultOf(w).pairs)[t] ==
            if StrLess(t.author1, t.author2) && t.count == PairCount(w, t.author1, t.author2) > 0 then 1 else 0
    ensures NonIncreasing(ResultOf(w).pairs, PairCountKey)
    ensures forall k :: WithKey(ResultOf(w).pairs, PairCountKey, k) == WithKey(PairList(CollabAfter(Empty, w).data), PairCountKey, k)
  {
    var data := CollabAfter(Empty, w).data;
    DataSpec(w, t.author1, t.author2);
    PairListCount(data, t);
    SortDescSpec(PairList(data), PairCountKey);
  }
}
