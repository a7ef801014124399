/** Global project statistics (`ContributionFormatter._calculate_stats`):
    one walk over the tree updates totals, three counters keyed by
    extension, language and parent directory, a counter of summed ownership
    percentages per author, and three per-file lists that are finally sorted
    in descending order (stable for equal keys). */
module GlobalStats {
  import opened Optional
  import opened PyStr
  import opened Assoc
  import opened Sorting
  import opened Tree

  /** An entry of a ranked list: the file's path and the value it is ranked
      by (its `lastChangeEpoch`, its size or its commit count). The date
      string and the size in KB of the source's entries are not modelled. */
  datatype Ranked = Ranked(file: string, value: int)

  function RankKey(e: Ranked): int {
    e.value
  }

  /** The `stats` dictionary. */
  datatype Stats = Stats(
    totalFiles: nat,
    totalSizeBytes: int,
    totalCommits: int,
    binaryFiles: nat,
    authors: Dict<int>,
    fileTypes: Dict<int>,
    directories: Dict<int>,
    languages: Dict<int>,
    lastChanges: seq<Ranked>,
    biggestFiles: seq<Ranked>,
    mostChangedFiles: seq<Ranked>)

  const Empty := Stats(0, 0, 0, 0, [], [], [], [], [], [], [])

  // What one file contributes to each part of `stats`.

  function SizeOf(v: Visit): int {
    v.data.sizeInBytes
  }

  function CommitsOf(v: Visit): int {
    v.data.noCommits
  }

  predicate IsBinaryFile(v: Visit) {
    v.data.isBinary
  }

  /** `file_types[ext] += 1` when the lower-cased extension is non-empty. */
  function ExtKey(v: Visit): Option<string> {
    if FileExt(v) != "" then Some(FileExt(v)) else None
  }

  /** `directories[dir] += 1` when the parent directory is non-empty. */
  function DirKey(v: Visit): Option<string> {
    if DirName(v.path) != "" then Some(DirName(v.path)) else None
  }

  /** `languages[lang] += 1` when the non-empty extension is in the table. */
  function LanguageKey(v: Visit): Option<string> {
    if FileExt(v) != "" then LanguageOf(FileExt(v)) else None
  }

  function RecencyEntry(v: Visit): seq<Ranked> {
    if v.data.lastChangeEpoch != 0 then [Ranked(v.path, v.data.lastChangeEpoch)] else []
  }

  function SizeEntry(v: Visit): seq<Ranked> {
    [Ranked(v.path, v.data.sizeInBytes)]
  }

  function CommitEntry(v: Visit): seq<Ranked> {
    [Ranked(v.path, v.data.noCommits)]
  }

  /** `for author, percentage in authors.items(): stats['authors'][author] += percentage` */
  function AddPercentages(c: Dict<int>, authors: Dict<int>): Dict<int> {
    if authors == [] then c
    else
      var last := authors[|authors| - 1];
      Inc(AddPercentages(c, authors[..|authors| - 1]), last.0, last.1)
  }

  /** The author loop for each visited file in turn. */
  function AddAuthors(c: Dict<int>, w: seq<Visit>): Dict<int> {
    if w == [] then c else AddPercentages(AddAuthors(c, w[..|w| - 1]), w[|w| - 1].data.authors)
  }

  /** `stats` after the blob branch of `traverse_tree` has run for each visit of `w` in turn. */
  function Fold(s: Stats, w: seq<Visit>): Stats {
    Stats(
      s.totalFiles + |w|,
      s.totalSizeBytes + SumBy(w, SizeOf),
      s.totalCommits + SumBy(w, CommitsOf),
      s.binaryFiles + CountIf(w, IsBinaryFile),
      AddAuthors(s.authors, w),
      Tally(s.fileTypes, w, ExtKey),
      Tally(s.directories, w, DirKey),
      Tally(s.languages, w, LanguageKey),
      s.lastChanges + FlatMap(w, RecencyEntry),
      s.biggestFiles + FlatMap(w, SizeEntry),
      s.mostChangedFiles + FlatMap(w, CommitEntry))
  }

  /** The three in-place sorts after the walk. */
  function SortLists(s: Stats): Stats {
    s.(lastChanges := SortDesc(s.lastChanges, RankKey),
       biggestFiles := SortDesc(s.biggestFiles, RankKey),
       mostChangedFiles := SortDesc(s.mostChangedFiles, RankKey))
  }

  /** The statistics once the blob branch has seen the files `w`, in order. */
  function StatsOf(w: seq<Visit>): Stats {
    SortLists(Fold(Empty, w))
  }

  /** What `_calculate_stats` returns for a document whose `simplifiedTree` is `root`. */
  function Final(root: Option<Node>): Stats {
    StatsOf(WalkRoot(root))
  }

  lemma {:induction false} AddAuthorsAppend(c: Dict<int>, a: seq<Visit>, b: seq<Visit>)
    ensures AddAuthors(c, a + b) == AddAuthors(AddAuthors(c, a), b)
  {
    if b != [] {
      assert (a + b)[..|a + b| - 1] == a + b[..|b| - 1];
      AddAuthorsAppend(c, a, b[..|b| - 1]);
    } else {
      assert a + b == a;
    }
  }

  /** Walking `a` and then `b` is walking `a + b`. */
  lemma FoldAppend(s: Stats, a: seq<Visit>, b: seq<Visit>)
    ensures Fold(s, a + b) == Fold(Fold(s, a), b)
  {
    FoldAppendTotals(s, a, b);
    FoldAppendCounters(s, a, b);
    FoldAppendLists(s, a, b);
  }

  lemma FoldAppendTotals(s: Stats, a: seq<Visit>, b: seq<Visit>)
    ensures Fold(s, a + b).totalSizeBytes == Fold(Fold(s, a), b).totalSizeBytes
    ensures Fold(s, a + b).totalCommits == Fold(Fold(s, a), b).totalCommits
    ensures Fold(s, a + b).binaryFiles == Fold(Fold(s, a), b).binaryFiles
    ensures Fold(s, a + b).authors == Fold(Fold(s, a), b).authors
  {
    SumByAppend(a, b, SizeOf);
    SumByAppend(a, b, CommitsOf);
    CountIfAppend(a, b, IsBinaryFile);
    AddAuthorsAppend(s.authors, a, b);
  }

  lemma FoldAppendCounters(s: Stats, a: seq<Visit>, b: seq<Visit>)
    ensures Fold(s, a + b).fileTypes == Fold(Fold(s, a), b).fileTypes
    ensures Fold(s, a + b).directories == Fold(Fold(s, a), b).directories
    ensures Fold(s, a + b).languages == Fold(Fold(s, a), b).languages
  {
    TallyAppend(s.fileTypes, a, b, ExtKey);
    TallyAppend(s.directories, a, b, DirKey);
    TallyAppend(s.languages, a, b, LanguageKey);
  }

  lemma FoldAppendLists(s: Stats, a: seq<Visit>, b: seq<Visit>)
    ensures Fold(s, a + b).lastChanges == Fold(Fold(s, a), b).lastChanges
    ensures Fold(s, a + b).biggestFiles == Fold(Fold(s, a), b).biggestFiles
    ensures Fold(s, a + b).mostChangedFiles == Fold(Fold(s, a), b).mostChangedFiles
  {
    FlatMapAppendAt(s.lastChanges, a, b, RecencyEntry);
    FlatMapAppendAt(s.biggestFiles, a, b, SizeEntry);
    FlatMapAppendAt(s.mostChangedFiles, a, b, CommitEntry);
  }

  lemma FlatMapAppendAt(init: seq<Ranked>, a: seq<Visit>, b: seq<Visit>, f: Visit -> seq<Ranked>)
    ensures init + FlatMap(a + b, f) == (init + FlatMap(a, f)) + FlatMap(b, f)
  {
    FlatMapAppend(a, b, f);
  }

  lemma FoldNothing(s: Stats)
    ensures Fold(s, []) == s
  {
  }

  /** What the blob branch of `traverse_tree` does to `stats` for one file:
      the totals and author percentages, then the counters, then the lists. */
  function Step(s: Stats, v: Visit): Stats {
    EntryStep(KindStep(CountStep(s, v), v), v)
  }

  function CountStep(s: Stats, v: Visit): Stats {
    s.(totalFiles := s.totalFiles + 1,
       totalSizeBytes := s.totalSizeBytes + v.data.sizeInBytes,
       totalCommits := s.totalCommits + v.data.noCommits,
       binaryFiles := if v.data.isBinary then s.binaryFiles + 1 else s.binaryFiles,
       authors := AddPercentages(s.authors, v.data.authors))
  }

  function KindStep(s: Stats, v: Visit): Stats {
    var ext := FileExt(v);
    var dir := DirName(v.path);
    s.(fileTypes := if ext != "" then Inc(s.fileTypes, ext, 1) else s.fileTypes,
       directories := if dir != "" then Inc(s.directories, dir, 1) else s.directories,
       languages := if ext != "" && LanguageOf(ext).Some? then Inc(s.languages, LanguageOf(ext).value, 1) else s.languages)
  }

  function EntryStep(s: Stats, v: Visit): Stats {
    s.(lastChanges := s.lastChanges + RecencyEntry(v),
       biggestFiles := s.biggestFiles + [Ranked(v.path, v.data.sizeInBytes)],
       mostChangedFiles := s.mostChangedFiles + [Ranked(v.path, v.data.noCommits)])
  }

  /** The fold over one file is the blob branch. */
  lemma FoldOne(s: Stats, v: Visit)
    ensures Fold(s, [v]) == Step(s, v)
  {
    FoldOneTotals(s, v);
    FoldOneCounters(s, v);
    FoldOneLists(s, v);
  }

  lemma FoldOneTotals(s: Stats, v: Visit)
    ensures Fold(s, [v]).totalSizeBytes == s.totalSizeBytes + v.data.sizeInBytes
    ensures Fold(s, [v]).totalCommits == s.totalCommits + v.data.noCommits
    ensures Fold(s, [v]).binaryFiles == if v.data.isBinary then s.binaryFiles + 1 else s.binaryFiles
    ensures Fold(s, [v]).authors == AddPercentages(s.authors, v.data.authors)
  {
    SumByOne(v, SizeOf);
    SumByOne(v, CommitsOf);
    CountIfOne(v, IsBinaryFile);
    AddAuthorsAppend(s.authors, [], [v]);
  }

  lemma FoldOneCounters(s: Stats, v: Visit)
    ensures Fold(s, [v]).fileTypes == if FileExt(v) != "" then Inc(s.fileTypes, FileExt(v), 1) else s.fileTypes
    ensures Fold(s, [v]).directories == if DirName(v.path) != "" then Inc(s.directories, DirName(v.path), 1) else s.directories
    ensures Fold(s, [v]).languages == if FileExt(v) != "" && LanguageOf(FileExt(v)).Some? then Inc(s.languages, LanguageOf(FileExt(v)).value, 1) else s.languages
  {
    TallyOne(s.fileTypes, v, ExtKey);
    TallyOne(s.directories, v, DirKey);
    TallyOne(s.languages, v, LanguageKey);
  }

  lemma FoldOneLists(s: Stats, v: Visit)
    ensures Fold(s, [v]).lastChanges == s.lastChanges + RecencyEntry(v)
    ensures Fold(s, [v]).biggestFiles == s.biggestFiles + [Ranked(v.path, v.data.sizeInBytes)]
    ensures Fold(s, [v]).mostChangedFiles == s.mostChangedFiles + [Ranked(v.path, v.data.noCommits)]
  {
    FlatMapOne(v, RecencyEntry);
    FlatMapOne(v, SizeEntry);
    FlatMapOne(v, CommitEntry);
  }

  /** The analyser: the fields of the `stats` dictionary, updated in place. */
  class StatsAggregator {
    var totalFiles: nat
    var totalSizeBytes: int
    var totalCommits: int
    var binaryFiles: nat
    var authors: Dict<int>
    var fileTypes: Dict<int>
    var directories: Dict<int>
    var languages: Dict<int>
    var lastChanges: seq<Ranked>
    var biggestFiles: seq<Ranked>
    var mostChangedFiles: seq<Ranked>

    function State(): Stats
      reads this
    {
      Stats(totalFiles, totalSizeBytes, totalCommits, binaryFiles, authors, fileTypes,
            directories, languages, lastChanges, biggestFiles, mostChangedFiles)
    }

    constructor ()
      ensures State() == Empty
    {
      totalFiles, totalSizeBytes, totalCommits, binaryFiles := 0, 0, 0, 0;
      authors, fileTypes, directories, languages := [], [], [], [];
      lastChanges, biggestFiles, mostChangedFiles := [], [], [];
    }

    /** The author loop of the blob branch. */
    method AddFileAuthors(fileAuthors: Dict<int>)
      modifies this
      ensures authors == AddPercentages(old(authors), fileAuthors)
      ensures State() == old(State()).(authors := authors)
    {
      var i := 0;
      while i < |fileAuthors|
        invariant 0 <= i <= |fileAuthors|
        invariant authors == AddPercentages(old(authors), fileAuthors[..i])
        invariant State() == old(State()).(authors := authors)
      {
        var (author, percentage) := fileAuthors[i];
        assert fileAuthors[..i + 1][..i] == fileAuthors[..i];
        authors := Inc(authors, author, percentage);
        i := i + 1;
      }
      assert fileAuthors[..i] == fileAuthors;
    }

    /** The blob branch of `traverse_tree`. */
    method VisitBlob(path: string, name: string, d: BlobData)
      modifies this
      ensures State() == Step(old(State()), Visit(path, name, d))
    {
      var v := Visit(path, name, d);
      CountFile(v);
      CountKinds(v);
      RecordEntries(v);
    }

    /** The totals and the author loop of the blob branch. */
    method CountFile(v: Visit)
      modifies this
      ensures State() == CountStep(old(State()), v)
    {
      var d := v.data;
      totalFiles := totalFiles + 1;
      totalSizeBytes := totalSizeBytes + d.sizeInBytes;
      totalCommits := totalCommits + d.noCommits;
      AddFileAuthors(d.authors);
      if d.isBinary {
        binaryFiles := binaryFiles + 1;
      }
    }

    /** The three list appends of the blob branch. */
    method RecordEntries(v: Visit)
      modifies this
      ensures State() == EntryStep(old(State()), v)
    {
      if v.data.lastChangeEpoch != 0 {
        lastChanges := lastChanges + [Ranked(v.path, v.data.lastChangeEpoch)];
      }
      biggestFiles := biggestFiles + [Ranked(v.path, v.data.sizeInBytes)];
      mostChangedFiles := mostChangedFiles + [Ranked(v.path, v.data.noCommits)];
    }

    /** The extension, language and directory counters of the blob branch. */
    method CountKinds(v: Visit)
      modifies this
      ensures State() == KindStep(old(State()), v)
    {
      var ext := Lower(Ext(v.name));
      if ext != "" {
        fileTypes := Inc(fileTypes, ext, 1);
        var lang := LanguageOf(ext);
        if lang.Some? {
          languages := Inc(languages, lang.value, 1);
        }
      }
      var dir := DirName(v.path);
      if dir != "" {
        directories := Inc(directories, dir, 1);
      }
    }

    /** `traverse_tree(node, path)` */
    method Traverse(node: Node, path: string)
      modifies this
      ensures State() == Fold(old(State()), Walk(node, path))
      decreases node
    {
      match node
      case Blob(name, d) =>
        FoldOne(State(), Visit(path, name, d));
        VisitBlob(path, name, d);
      case Other(_) =>
        FoldNothing(State());
      case Tree(_, cs) =>
        FoldNothing(State());
        var i := 0;
        while i < |cs|
          invariant 0 <= i <= |cs|
          invariant State() == Fold(old(State()), WalkChildren(cs[..i], path))
        {
          var child := cs[i];
          ghost var before := WalkChildren(cs[..i], path);
          Traverse(child, ChildPath(path, child.name));
          FoldAppend(old(State()), before, Walk(child, ChildPath(path, child.name)));
          ghost var prev := i;
          i := i + 1;
          WalkChildrenNext(cs, path, prev, i);
        }
        assert cs[..i] == cs;
    }

    /** The three `sort(key=..., reverse=True)` calls. */
    method SortAll()
      modifies this
      ensures State() == SortLists(old(State()))
    {
      lastChanges, biggestFiles, mostChangedFiles :=
        SortDesc(lastChanges, RankKey), SortDesc(biggestFiles, RankKey), SortDesc(mostChangedFiles, RankKey);
    }
  }

  /** `_calculate_stats` */
  method CalculateStats(root: Option<Node>) returns (s: Stats)
    ensures s == Final(root)
  {
    var agg := new StatsAggregator();
    if root.Some? {
      agg.Traverse(root.value, "");
    }
    agg.SortAll();
    s := agg.State();
  }

  // ---------------------------------------------------------------------
  // Reference definitions over the visited files.

  /** The files whose parent directory is `d`. */
  function DirCount(w: seq<Visit>, d: string): nat {
    if w == [] then 0 else DirCount(w[..|w| - 1], d) + (if DirName(w[|w| - 1].path) == d then 1 else 0)
  }

  /** The files whose lower-cased extension is `e`. */
  function ExtCount(w: seq<Visit>, e: string): nat {
    if w == [] then 0 else ExtCount(w[..|w| - 1], e) + (if FileExt(w[|w| - 1]) == e then 1 else 0)
  }

  /** The files whose extension the table maps to language `l`. */
  function LangCount(w: seq<Visit>, l: string): nat {
    if w == [] then 0 else LangCount(w[..|w| - 1], l) + (if LanguageOf(FileExt(w[|w| - 1])) == Some(l) then 1 else 0)
  }

  /** The summed percentage entries of `a` in one `authors` mapping. */
  function PctFor(authors: Dict<int>, a: string): int {
    if authors == [] then 0
    else PctFor(authors[..|authors| - 1], a) + (if authors[|authors| - 1].0 == a then authors[|authors| - 1].1 else 0)
  }

  /** The summed percentages of `a` over all files. */
  function PctTotal(w: seq<Visit>, a: string): int {
    if w == [] then 0 else PctTotal(w[..|w| - 1], a) + PctFor(w[|w| - 1].data.authors, a)
  }

  /** The author names that occur as keys of some file's `authors`. */
  predicate ListedAuthor(w: seq<Visit>, a: string) {
    exists i :: 0 <= i < |w| && HasKey(w[i].data.authors, a)
  }

  predicate HasChangeDate(v: Visit) {
    v.data.lastChangeEpoch != 0
  }

  // ---------------------------------------------------------------------
  // What the walk computes.

  /** `total_files` is the number of file nodes reachable through directory
      nodes (nodes of any other type are neither counted nor descended into);
      the other totals sum over those files. */
  lemma Totals(root: Node)
    ensures Final(Some(root)).totalFiles == BlobCount(root)
    ensures Final(Some(root)).totalSizeBytes == SumBy(Walk(root, ""), SizeOf)
    ensures Final(Some(root)).totalCommits == SumBy(Walk(root, ""), CommitsOf)
    ensures Final(Some(root)).binaryFiles == CountIf(Walk(root, ""), IsBinaryFile) <= BlobCount(root)
  {
    WalkCount(root, "");
  }

  /** A document without `simplifiedTree` leaves every statistic at zero. */
  lemma NoTree()
    ensures Final(None) == Empty
  {
    FoldNothing(Empty);
  }

  lemma {:induction false} DirKeyCount(w: seq<Visit>, d: string)
    ensures KeyCount(w, DirKey, d) == if d == "" then 0 else DirCount(w, d)
  {
    if w != [] {
      DirKeyCount(w[..|w| - 1], d);
    }
  }

  /** Each file adds exactly one to the counter of its parent directory
      (`os.path.dirname` of its path) and to no other; files directly under
      the root add nothing, so the counter has no empty key. */
  lemma Directories(w: seq<Visit>, d: string)
    ensures Get(StatsOf(w).directories, d) == if d == "" then 0 else DirCount(w, d)
    ensures HasKey(StatsOf(w).directories, d) <==> d != "" && DirCount(w, d) > 0
  {
    TallyCount([], w, DirKey, d);
    DirKeyCount(w, d);
  }

  lemma {:induction false} ExtKeyCount(w: seq<Visit>, e: string, l: string)
    ensures KeyCount(w, ExtKey, e) == if e == "" then 0 else ExtCount(w, e)
    ensures KeyCount(w, LanguageKey, l) == LangCount(w, l)
  {
    if w != [] {
      ExtKeyCount(w[..|w| - 1], e, l);
      var v := w[|w| - 1];
      if LanguageOf(FileExt(v)).Some? {
        LanguageTable(FileExt(v));
      }
    }
  }

  /** `file_types` counts every non-empty lower-cased extension and
      `languages` every extension of the fixed table, under its language. */
  lemma Extensions(w: seq<Visit>, e: string, l: string)
    ensures Get(StatsOf(w).fileTypes, e) == if e == "" then 0 else ExtCount(w, e)
    ensures Get(StatsOf(w).languages, l) == LangCount(w, l)
  {
    TallyCount([], w, ExtKey, e);
    TallyCount([], w, LanguageKey, l);
    ExtKeyCount(w, e, l);
  }

  lemma {:induction false} LanguageKeyedBelowExt(w: seq<Visit>)
    ensures Keyed(w, LanguageKey) <= Keyed(w, ExtKey)
  {
    if w != [] {
      LanguageKeyedBelowExt(w[..|w| - 1]);
    }
  }

  /** Every language count is also an extension count, and every extension
      count is also a file count. */
  lemma CounterSums(w: seq<Visit>)
    ensures Sum(StatsOf(w).languages) == Keyed(w, LanguageKey)
    ensures Sum(StatsOf(w).fileTypes) == Keyed(w, ExtKey)
    ensures Sum(StatsOf(w).languages) <= Sum(StatsOf(w).fileTypes) <= StatsOf(w).totalFiles
  {
    TallySum([], w, ExtKey);
    TallySum([], w, LanguageKey);
    LanguageKeyedBelowExt(w);
  }

  lemma {:induction false} RecencyEntries(w: seq<Visit>)
    ensures |FlatMap(w, RecencyEntry)| == CountIf(w, HasChangeDate)
    ensures forall e :: e in FlatMap(w, RecencyEntry) ==> e.value != 0
  {
    if w != [] {
      RecencyEntries(w[..|w| - 1]);
    }
  }

  /** One size entry per file, in traversal order. */
  lemma {:induction false} SizeEntries(w: seq<Visit>)
    ensures |FlatMap(w, SizeEntry)| == |w|
    ensures forall i :: 0 <= i < |w| ==> FlatMap(w, SizeEntry)[i] == Ranked(w[i].path, w[i].data.sizeInBytes)
  {
    if w != [] {
      SizeEntries(w[..|w| - 1]);
    }
  }

  /** One commit-count entry per file, in traversal order. */
  lemma {:induction false} CommitEntries(w: seq<Visit>)
    ensures |FlatMap(w, CommitEntry)| == |w|
    ensures forall i :: 0 <= i < |w| ==> FlatMap(w, CommitEntry)[i] == Ranked(w[i].path, w[i].data.noCommits)
  {
    if w != [] {
      CommitEntries(w[..|w| - 1]);
    }
  }

  lemma FoldEmptyLists(w: seq<Visit>)
    ensures Fold(Empty, w).lastChanges == FlatMap(w, RecencyEntry)
    ensures Fold(Empty, w).biggestFiles == FlatMap(w, SizeEntry)
    ensures Fold(Empty, w).mostChangedFiles == FlatMap(w, CommitEntry)
  {
  }

  lemma SortedFields(w: seq<Visit>)
    ensures StatsOf(w).lastChanges == SortDesc(Fold(Empty, w).lastChanges, RankKey)
    ensures StatsOf(w).biggestFiles == SortDesc(Fold(Empty, w).biggestFiles, RankKey)
    ensures StatsOf(w).mostChangedFiles == SortDesc(Fold(Empty, w).mostChangedFiles, RankKey)
  {
  }

  /** The three lists are the per-file entries in traversal order, sorted. */
  lemma ListsOf(w: seq<Visit>)
    ensures StatsOf(w).lastChanges == SortDesc(FlatMap(w, RecencyEntry), RankKey)
    ensures StatsOf(w).biggestFiles == SortDesc(FlatMap(w, SizeEntry), RankKey)
    ensures StatsOf(w).mostChangedFiles == SortDesc(FlatMap(w, CommitEntry), RankKey)
  {
    FoldEmptyLists(w);
    SortedFields(w);
  }

  /** `last_changes` holds one entry per file with a non-zero
      `lastChangeEpoch`, newest first, keeping traversal order among equal
      timestamps. */
  lemma LastChangesRanked(w: seq<Visit>)
    ensures var s := StatsOf(w).lastChanges;
      && |s| == CountIf(w, HasChangeDate)
      && (forall e :: e in s ==> e.value != 0)
      && multiset(s) == multiset(FlatMap(w, RecencyEntry))
      && NonIncreasing(s, RankKey)
      && forall k :: WithKey(s, RankKey, k) == WithKey(FlatMap(w, RecencyEntry), RankKey, k)
  {
    ListsOf(w);
    var r := FlatMap(w, RecencyEntry);
    RecencyEntries(w);
    SortDescSpec(r, RankKey);
    forall e | e in SortDesc(r, RankKey) ensures e.value != 0 {
      assert e in multiset(r);
    }
  }

  /** `biggest_files` holds one entry per file with its size, largest first,
      keeping traversal order among equal sizes. */
  lemma BiggestFilesRanked(w: seq<Visit>)
    ensures var s, r := StatsOf(w).biggestFiles, FlatMap(w, SizeEntry);
      && multiset(s) == multiset(r)
      && NonIncreasing(s, RankKey)
      && forall k :: WithKey(s, RankKey, k) == WithKey(r, RankKey, k)
  {
    ListsOf(w);
    SortDescSpec(FlatMap(w, SizeEntry), RankKey);
  }

  /** `most_changed_files` holds one entry per file with its commit count,
      most changed first, keeping traversal order among equal counts. */
  lemma MostChangedRanked(w: seq<Visit>)
    ensures var s, r := StatsOf(w).mostChangedFiles, FlatMap(w, CommitEntry);
      && multiset(s) == multiset(r)
      && NonIncreasing(s, RankKey)
      && forall k :: WithKey(s, RankKey, k) == WithKey(r, RankKey, k)
  {
    ListsOf(w);
    SortDescSpec(FlatMap(w, CommitEntry), RankKey);
  }

  lemma {:induction false} AddPercentagesSpec(c: Dict<int>, authors: Dict<int>, a: string)
    ensures Get(AddPercentages(c, authors), a) == Get(c, a) + PctFor(authors, a)
    ensures HasKey(AddPercentages(c, authors), a) <==> HasKey(c, a) || HasKey(authors, a)
    ensures DistinctKeys(c) ==> DistinctKeys(AddPercentages(c, authors))
  {
    if authors != [] {
      var init := authors[..|authors| - 1];
      var last := authors[|authors| - 1];
      AddPercentagesSpec(c, init, a);
      assert init + [last] == authors;
      HasKeyAppend(init, last, a);
      if DistinctKeys(c) {
        IncDistinct(AddPercentages(c, init), last.0, last.1);
      }
    }
  }

  lemma {:induction false} AddAuthorsSpec(c: Dict<int>, w: seq<Visit>, a: string)
    ensures Get(AddAuthors(c, w), a) == Get(c, a) + PctTotal(w, a)
    ensures HasKey(AddAuthors(c, w), a) <==> HasKey(c, a) || ListedAuthor(w, a)
    ensures DistinctKeys(c) ==> DistinctKeys(AddAuthors(c, w))
  {
    if w != [] {
      var w' := w[..|w| - 1];
      AddAuthorsSpec(c, w', a);
      AddPercentagesSpec(AddAuthors(c, w'), w[|w| - 1].data.authors, a);
      if ListedAuthor(w', a) {
        var i :| 0 <= i < |w'| && HasKey(w'[i].data.authors, a);
        assert w[i] == w'[i];
      }
      if ListedAuthor(w, a) && !HasKey(w[|w| - 1].data.authors, a) {
        var i :| 0 <= i < |w| && HasKey(w[i].data.authors, a);
        assert w'[i] == w[i];
      }
    }
  }

  /** `stats['authors']` sums each author's ownership percentages over all
      files (a sum, not a file count) and has one key for each author listed
      in some file's `authors`, and no other. */
  lemma AuthorPercentages(w: seq<Visit>, a: string)
    ensures Get(StatsOf(w).authors, a) == PctTotal(w, a)
    ensures HasKey(StatsOf(w).authors, a) <==> ListedAuthor(w, a)
    ensures DistinctKeys(StatsOf(w).authors)
  {
    AddAuthorsSpec([], w, a);
  }
}
