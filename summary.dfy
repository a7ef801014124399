/** The count-only parts of `generate_summary`: the project name, the
    general statistics, the number of distinct authors and the total the
    author comparison divides by, and the detected architecture. */
module Summary {
  import opened Optional
  import opened Assoc
  import opened PyStr
  import opened Tree
  import opened GlobalStats
  import opened Architecture

  datatype Summary = Summary(
    projectName: string,
    totalFiles: nat,
    totalSizeBytes: int,
    totalCommits: int,
    binaryFiles: nat,
    uniqueAuthors: nat,
    totalLines: int,
    patterns: seq<Pattern>,
    techStack: seq<Tech>)

  /** `data.get('simplifiedTree', {}).get('name', 'Proyecto')` */
  function ProjectName(root: Option<Node>): string {
    match root
    case None => "Proyecto"
    case Some(n) => n.name
  }

  /** The keys of a dictionary, as a set. */
  ghost function KeySet<V>(d: Dict<V>): set<string> {
    if d == [] then {} else {d[0].0} + KeySet(d[1..])
  }

  /** Every author listed in some file's `authors`. */
  ghost function AuthorSet(w: seq<Visit>): set<string> {
    if w == [] then {} else AuthorSet(w[..|w| - 1]) + KeySet(w[|w| - 1].data.authors)
  }

  /** The summed ownership entries of one file. */
  function FileShares(v: Visit): int {
    Sum(v.data.authors)
  }

  lemma {:induction false} KeySetSpec<V>(d: Dict<V>, k: string)
    ensures k in KeySet(d) <==> HasKey(d, k)
  {
    if d != [] {
      KeySetSpec(d[1..], k);
    }
  }

  lemma {:induction false} KeySetSize<V>(d: Dict<V>)
    requires DistinctKeys(d)
    ensures |KeySet(d)| == |d|
  {
    if d != [] {
      KeySetSize(d[1..]);
      KeySetSpec(d[1..], d[0].0);
    }
  }

  lemma {:induction false} AuthorSetSpec(w: seq<Visit>, a: string)
    ensures a in AuthorSet(w) <==> ListedAuthor(w, a)
  {
    if w != [] {
      var w' := w[..|w| - 1];
      AuthorSetSpec(w', a);
      KeySetSpec(w[|w| - 1].data.authors, a);
      if ListedAuthor(w', a) {
        var i :| 0 <= i < |w'| && HasKey(w'[i].data.authors, a);
        assert w[i] == w'[i];
      }
      if ListedAuthor(w, a) && !HasKey(w[|w| - 1].data.authors, a) {
        var i :| 0 <= i < |w| && HasKey(w[i].data.authors, a);
        assert w'[i] == w[i];
      }
    }
  }

  /** `len(stats['authors'])` is the number of distinct author names listed
      in the files' `authors` mappings. */
  lemma UniqueAuthors(w: seq<Visit>)
    ensures |StatsOf(w).authors| == |AuthorSet(w)|
  {
    var c := StatsOf(w).authors;
    AuthorPercentages(w, "");
    forall a ensures a in KeySet(c) <==> a in AuthorSet(w) {
      KeySetSpec(c, a);
      AuthorPercentages(w, a);
      AuthorSetSpec(w, a);
    }
    assert KeySet(c) == AuthorSet(w);
    KeySetSize(c);
  }

  lemma {:induction false} SumSnoc(d: Dict<int>, p: (string, int))
    ensures Sum(d + [p]) == Sum(d) + p.1
  {
    if d != [] {
      assert (d + [p])[1..] == d[1..] + [p];
      SumSnoc(d[1..], p);
    }
  }

  lemma {:induction false} AddPercentagesSum(c: Dict<int>, authors: Dict<int>)
    requires DistinctKeys(c)
    ensures Sum(AddPercentages(c, authors)) == Sum(c) + Sum(authors)
  {
    if authors != [] {
      var init, last := authors[..|authors| - 1], authors[|authors| - 1];
      AddPercentagesSum(c, init);
      AddPercentagesSpec(c, init, "");
      SumInc(AddPercentages(c, init), last.0, last.1);
      assert init + [last] == authors;
      SumSnoc(init, last);
    }
  }

  lemma {:induction false} AddAuthorsSum(c: Dict<int>, w: seq<Visit>)
    requires DistinctKeys(c)
    ensures Sum(AddAuthors(c, w)) == Sum(c) + SumBy(w, FileShares)
  {
    if w != [] {
      var w' := w[..|w| - 1];
      AddAuthorsSum(c, w');
      AddAuthorsSpec(c, w', "");
      AddPercentagesSum(AddAuthors(c, w'), w[|w| - 1].data.authors);
    }
  }

  /** `sum(stats['authors'].values())`, the total the author comparison
      divides by, is the sum of every file's ownership entries. */
  lemma TotalLines(w: seq<Visit>)
    ensures Sum(StatsOf(w).authors) == SumBy(w, FileShares)
  {
    AddAuthorsSum([], w);
  }

  /** The counts `generate_summary` prints, with the architecture analysis
      run on the same statistics. */
  method GenerateSummary(root: Option<Node>) returns (s: Summary)
    ensures s.projectName == Upper(ProjectName(root))
    ensures s.totalFiles == |WalkRoot(root)|
    ensures s.totalSizeBytes == SumBy(WalkRoot(root), SizeOf)
    ensures s.totalCommits == SumBy(WalkRoot(root), CommitsOf)
    ensures s.binaryFiles == CountIf(WalkRoot(root), IsBinaryFile)
    ensures s.uniqueAuthors == |AuthorSet(WalkRoot(root))|
    ensures s.totalLines == SumBy(WalkRoot(root), FileShares)
    ensures forall p :: p in s.patterns <==> ParentContains(WalkRoot(root), Needle(p))
    ensures forall i, j :: 0 <= i < j < |s.patterns| ==> Rank(s.patterns[i]) < Rank(s.patterns[j])
    ensures forall t :: t in s.techStack <==>
              LowerParentContains(WalkRoot(root), TechNeedle(t)) || (t == TypeScript && ExtCount(WalkRoot(root), ".ts") > 0)
    ensures forall i, j :: 0 <= i < j < |s.techStack| ==> TechRank(s.techStack[i]) < TechRank(s.techStack[j])
  {
    var w := WalkRoot(root);
    var stats := CalculateStats(root);
    var patterns, techStack := AnalyzeArchitecture(stats.directories, stats.fileTypes);
    UniqueAuthors(w);
    TotalLines(w);
    forall p ensures PatternFires(Keys(stats.directories), p) <==> ParentContains(w, Needle(p)) {
      PatternsOfFiles(w, p);
    }
    forall t ensures TechFires(Keys(stats.directories), stats.fileTypes, t) <==>
                     LowerParentContains(w, TechNeedle(t)) || (t == TypeScript && ExtCount(w, ".ts") > 0) {
      TechOfFiles(w, t);
    }
    s := Summary(Upper(ProjectName(root)), stats.totalFiles, stats.totalSizeBytes, stats.totalCommits,
                 stats.binaryFiles, |stats.authors|, Sum(stats.authors), patterns, techStack);
  }
}
