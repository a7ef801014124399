/** Per-author rollups (`ContributionFormatter._get_author_analysis`): one
    walk over the tree fills an insertion-ordered table of author records
    (a `defaultdict` whose missing entries are created on first access);
    afterwards each record's three lists are sorted and the authors are
    ranked by their historical line totals. */
module Authors {
  import opened Optional
  import opened PyStr
  import opened Assoc
  import opened Sorting
  import opened Tree
  import GlobalStats

  /** Files changed after this epoch count as recent activity. */
  const RecentSince := 1700000000

  /** A `recent_files` entry. */
  datatype Recent = Recent(file: string, timestamp: int, size: int, commits: int)

  /** A `biggest_contributions` entry. */
  datatype Contribution = Contribution(file: string, lines: int, size: int, commits: int)

  /** A per-author `most_changed_files` entry. */
  datatype Changed = Changed(file: string, commits: int, size: int)

  /** One author's record. */
  datatype AuthorStats = AuthorStats(
    filesTouched: nat,
    filesOwned: nat,
    filesShared: nat,
    totalLines: int,
    commits: set<string>,
    fileTypes: Dict<int>,
    directories: Dict<int>,
    fileSizes: seq<int>,
    ownership: seq<int>,
    recentFiles: seq<Recent>,
    biggestContributions: seq<Contribution>,
    mostChangedFiles: seq<Changed>,
    languages: Dict<int>)

  /** The record the `defaultdict` factory creates. */
  const NewRecord := AuthorStats(0, 0, 0, 0, {}, [], [], [], [], [], [], [], [])

  function RecentEntry(v: Visit): seq<Recent> {
    if v.data.lastChangeEpoch > RecentSince
    then [Recent(v.path, v.data.lastChangeEpoch, v.data.sizeInBytes, v.data.noCommits)]
    else []
  }

  function ChangedEntry(v: Visit): seq<Changed> {
    if v.data.noCommits > 1 then [Changed(v.path, v.data.noCommits, v.data.sizeInBytes)] else []
  }

  /** `counter[k] += 1` when there is a key. */
  function Bump(c: Dict<int>, k: Option<string>): Dict<int> {
    match k
    case None => c
    case Some(k) => Inc(c, k, 1)
  }

  // What each of the four loops of the blob branch does to one author's record.

  /** The `authors` loop, for an author with ownership percentage `pct`. */
  function Own(r: AuthorStats, pct: int, v: Visit): AuthorStats {
    r.(filesTouched := r.filesTouched + 1,
       ownership := r.ownership + [pct],
       fileSizes := r.fileSizes + [v.data.sizeInBytes],
       filesOwned := if pct == 100 then r.filesOwned + 1 else r.filesOwned,
       filesShared := if pct == 100 then r.filesShared else r.filesShared + 1,
       recentFiles := r.recentFiles + RecentEntry(v))
  }

  /** The `HISTORICAL` loop, for an author with `lines` lines. */
  function AddLines(r: AuthorStats, lines: int, v: Visit): AuthorStats {
    r.(totalLines := r.totalLines + lines,
       biggestContributions := r.biggestContributions + [Contribution(v.path, lines, v.data.sizeInBytes, v.data.noCommits)])
  }

  /** The commit ids of a list, as a set. */
  function IdSet(ids: seq<string>): (r: set<string>)
    ensures forall c :: c in r <==> c in ids
  {
    if ids == [] then {} else IdSet(ids[..|ids| - 1]) + {ids[|ids| - 1]}
  }

  /** The commit loop: every commit id of the file joins the author's set. */
  function AddCommits(r: AuthorStats, ids: seq<string>): AuthorStats {
    r.(commits := r.commits + IdSet(ids))
  }

  /** The extension, language, directory and most-changed loop. */
  function AddKinds(r: AuthorStats, v: Visit): AuthorStats {
    r.(fileTypes := Bump(r.fileTypes, GlobalStats.ExtKey(v)),
       languages := Bump(r.languages, GlobalStats.LanguageKey(v)),
       directories := Bump(r.directories, GlobalStats.DirKey(v)),
       mostChangedFiles := r.mostChangedFiles + ChangedEntry(v))
  }

  /** Which of the four loops is running, with what it reads of the file. */
  datatype Pass = Ownership(v: Visit) | Lines(v: Visit) | CommitIds(ids: seq<string>) | Kinds(v: Visit)

  /** The body of a loop for one author and the value stored with it. */
  function Apply(p: Pass, r: AuthorStats, x: int): AuthorStats {
    match p
    case Ownership(v) => Own(r, x, v)
    case Lines(v) => AddLines(r, x, v)
    case CommitIds(ids) => AddCommits(r, ids)
    case Kinds(v) => AddKinds(r, v)
  }

  /** `author_stats[a]`: the stored record, or a fresh one. */
  function Rec(t: Dict<AuthorStats>, a: string): AuthorStats {
    match Lookup(t, a)
    case None => NewRecord
    case Some(r) => r
  }

  /** A loop over the entries of `e`, updating each entry's author in turn. */
  function Each(t: Dict<AuthorStats>, e: Dict<int>, p: Pass): Dict<AuthorStats> {
    if e == [] then t
    else
      var t' := Each(t, e[..|e| - 1], p);
      var a := e[|e| - 1].0;
      Put(t', a, Apply(p, Rec(t', a), e[|e| - 1].1))
  }

  /** The blob branch of `analyze_authors`: the four loops in source order. */
  function AuthorStep(t: Dict<AuthorStats>, v: Visit): Dict<AuthorStats> {
    var d := v.data;
    Each(Each(Each(Each(t, d.authors, Ownership(v)), d.historical, Lines(v)), d.authors, CommitIds(d.commits)), d.authors, Kinds(v))
  }

  /** The table after the blob branch has run for each visit of `w` in turn. */
  function TableAfter(t: Dict<AuthorStats>, w: seq<Visit>): Dict<AuthorStats> {
    if w == [] then t else AuthorStep(TableAfter(t, w[..|w| - 1]), w[|w| - 1])
  }

  function TimestampKey(e: Recent): int {
    e.timestamp
  }

  function LinesKey(e: Contribution): int {
    e.lines
  }

  function CommitsKey(e: Changed): int {
    e.commits
  }

  /** The three `sort(key=..., reverse=True)` calls on one record. */
  function SortRecord(r: AuthorStats): AuthorStats {
    r.(biggestContributions := SortDesc(r.biggestContributions, LinesKey),
       mostChangedFiles := SortDesc(r.mostChangedFiles, CommitsKey),
       recentFiles := SortDesc(r.recentFiles, TimestampKey))
  }

  /** The post-walk sorting loop over every author. */
  function SortRecords(t: Dict<AuthorStats>): (r: Dict<AuthorStats>)
    ensures |r| == |t|
    ensures forall i :: 0 <= i < |t| ==> r[i] == (t[i].0, SortRecord(t[i].1))
  {
    seq(|t|, i requires 0 <= i < |t| => (t[i].0, SortRecord(t[i].1)))
  }

  /** The author table once the walk has seen `w` and the lists are sorted. */
  function AuthorTable(w: seq<Visit>): Dict<AuthorStats> {
    SortRecords(TableAfter([], w))
  }

  function TotalLinesKey(p: (string, AuthorStats)): int {
    p.1.totalLines
  }

  /** `sorted(author_stats.items(), key=total_lines, reverse=True)` */
  function Ranking(w: seq<Visit>): Dict<AuthorStats> {
    SortDesc(AuthorTable(w), TotalLinesKey)
  }

  /** The authors in report order, for a document whose `simplifiedTree` is `root`. */
  function AuthorAnalysis(root: Option<Node>): Dict<AuthorStats> {
    Ranking(WalkRoot(root))
  }

  /** The analyser: the `author_stats` table, updated in place. */
  class AuthorAnalyzer {
    var table: Dict<AuthorStats>

    constructor ()
      ensures table == []
    {
      table := [];
    }

    /** `for author, percentage in authors_in_file.items(): ...` */
    method OwnershipLoop(v: Visit)
      modifies this
      ensures table == Each(old(table), v.data.authors, Ownership(v))
    {
      var authors := v.data.authors;
      var i := 0;
      while i < |authors|
        invariant 0 <= i <= |authors|
        invariant table == Each(old(table), authors[..i], Ownership(v))
      {
        var (author, percentage) := authors[i];
        var r := OwnFile(Rec(table, author), percentage, v);
        EachSnoc(old(table), authors, i, Ownership(v));
        table := Put(table, author, r);
        i := i + 1;
      }
      EachAll(old(table), authors, Ownership(v));
    }

    /** The body of that loop for one author's record. */
    static method OwnFile(r: AuthorStats, percentage: int, v: Visit) returns (r': AuthorStats)
      ensures r' == Own(r, percentage, v)
    {
      r' := r.(filesTouched := r.filesTouched + 1,
               ownership := r.ownership + [percentage],
               fileSizes := r.fileSizes + [v.data.sizeInBytes]);
      if percentage == 100 {
        r' := r'.(filesOwned := r'.filesOwned + 1);
      } else {
        r' := r'.(filesShared := r'.filesShared + 1);
      }
      if v.data.lastChangeEpoch > RecentSince {
        r' := r'.(recentFiles := r'.recentFiles + [Recent(v.path, v.data.lastChangeEpoch, v.data.sizeInBytes, v.data.noCommits)]);
      }
    }

    /** `for author, lines in historical_authors.items(): ...` */
    method HistoricalLoop(v: Visit)
      modifies this
      ensures table == Each(old(table), v.data.historical, Lines(v))
    {
      var historical := v.data.historical;
      var i := 0;
      while i < |historical|
        invariant 0 <= i <= |historical|
        invariant table == Each(old(table), historical[..i], Lines(v))
      {
        var (author, lines) := historical[i];
        var r := AddFileLines(Rec(table, author), lines, v);
        EachSnoc(old(table), historical, i, Lines(v));
        table := Put(table, author, r);
        i := i + 1;
      }
      EachAll(old(table), historical, Lines(v));
    }

    /** The body of that loop for one author's record. */
    static method AddFileLines(r: AuthorStats, lines: int, v: Visit) returns (r': AuthorStats)
      ensures r' == AddLines(r, lines, v)
    {
      var total := r.totalLines + lines;
      var biggest := r.biggestContributions + [Contribution(v.path, lines, v.data.sizeInBytes, v.data.noCommits)];
      r' := r.(totalLines := total, biggestContributions := biggest);
    }

    /** `for author in authors_in_file.keys(): for commit in commits_in_file: ...add(commit)` */
    method CommitLoop(authors: Dict<int>, ids: seq<string>)
      modifies this
      ensures table == Each(old(table), authors, CommitIds(ids))
    {
      var i := 0;
      while i < |authors|
        invariant 0 <= i <= |authors|
        invariant table == Each(old(table), authors[..i], CommitIds(ids))
      {
        var author := authors[i].0;
        var r := CollectCommits(Rec(table, author), ids);
        EachSnoc(old(table), authors, i, CommitIds(ids));
        table := Put(table, author, r);
        i := i + 1;
      }
      EachAll(old(table), authors, CommitIds(ids));
    }

    /** The inner loop, for one author's record. */
    static method CollectCommits(r: AuthorStats, ids: seq<string>) returns (r': AuthorStats)
      ensures r' == AddCommits(r, ids)
    {
      var commits := r.commits;
      var j := 0;
      while j < |ids|
        invariant 0 <= j <= |ids|
        invariant commits == r.commits + IdSet(ids[..j])
      {
        assert ids[..j + 1][..j] == ids[..j];
        commits := commits + {ids[j]};
        j := j + 1;
      }
      assert ids[..j] == ids;
      r' := r.(commits := commits);
    }

    /** The loop over `authors_in_file.keys()` that counts extensions,
        languages and directories and records the most changed files. */
    method KindsLoop(v: Visit)
      modifies this
      ensures table == Each(old(table), v.data.authors, Kinds(v))
    {
      var authors := v.data.authors;
      var ext := Lower(Ext(v.name));
      var dir := DirName(v.path);
      var i := 0;
      while i < |authors|
        invariant 0 <= i <= |authors|
        invariant table == Each(old(table), authors[..i], Kinds(v))
      {
        var author := authors[i].0;
        var r := CountKinds(Rec(table, author), v, ext, dir);
        EachSnoc(old(table), authors, i, Kinds(v));
        table := Put(table, author, r);
        i := i + 1;
      }
      EachAll(old(table), authors, Kinds(v));
    }

    /** The body of that loop for one author's record, given the file's
        lower-cased extension and parent directory. */
    static method CountKinds(r: AuthorStats, v: Visit, ext: string, dir: string) returns (r': AuthorStats)
      requires ext == FileExt(v) && dir == DirName(v.path)
      ensures r' == AddKinds(r, v)
    {
      var fileTypes, languages, directories, changed := r.fileTypes, r.languages, r.directories, r.mostChangedFiles;
      if ext != "" {
        fileTypes := Inc(fileTypes, ext, 1);
        var lang := LanguageOf(ext);
        if lang.Some? {
          languages := Inc(languages, lang.value, 1);
        }
      }
      if dir != "" {
        directories := Inc(directories, dir, 1);
      }
      if v.data.noCommits > 1 {
        changed := changed + [Changed(v.path, v.data.noCommits, v.data.sizeInBytes)];
      }
      r' := r.(fileTypes := fileTypes, languages := languages, directories := directories, mostChangedFiles := changed);
    }

    /** The blob branch of `analyze_authors`. */
    method VisitBlob(path: string, name: string, d: BlobData)
      modifies this
      ensures table == AuthorStep(old(table), Visit(path, name, d))
    {
      var v := Visit(path, name, d);
      OwnershipLoop(v);
      HistoricalLoop(v);
      CommitLoop(d.authors, d.commits);
      KindsLoop(v);
    }

    /** `analyze_authors(node, path)` */
    method Traverse(node: Node, path: string)
      modifies this
      ensures table == TableAfter(old(table), Walk(node, path))
      decreases node
    {
      match node
      case Blob(name, d) =>
        assert [Visit(path, name, d)][..0] == [];
        VisitBlob(path, name, d);
      case Other(_) =>
      case Tree(_, cs) =>
        var i := 0;
        while i < |cs|
          invariant 0 <= i <= |cs|
          invariant table == TableAfter(old(table), WalkChildren(cs[..i], path))
        {
          var child := cs[i];
          ghost var before := WalkChildren(cs[..i], path);
          Traverse(child, ChildPath(path, child.name));
          TableAfterAppend(old(table), before, Walk(child, ChildPath(path, child.name)));
          assert cs[..i + 1][..i] == cs[..i];
          i := i + 1;
        }
        assert cs[..i] == cs;
    }

    /** The loop that sorts the three lists of every author. */
    method SortAll()
      modifies this
      ensures table == SortRecords(old(table))
    {
      var i := 0;
      while i < |table|
        invariant 0 <= i <= |table| == |old(table)|
        invariant forall j :: 0 <= j < i ==> table[j] == (old(table)[j].0, SortRecord(old(table)[j].1))
        invariant forall j :: i <= j < |table| ==> table[j] == old(table)[j]
      {
        var (author, r) := table[i];
        r := SortLists(r);
        table := table[i := (author, r)];
        i := i + 1;
      }
      assert table == SortRecords(old(table));
    }
  }

  /** The three sorts for one record. */
  method SortLists(r: AuthorStats) returns (r': AuthorStats)
    ensures r' == SortRecord(r)
  {
    var biggest := SortDesc(r.biggestContributions, LinesKey);
    var changed := SortDesc(r.mostChangedFiles, CommitsKey);
    var recent := SortDesc(r.recentFiles, TimestampKey);
    r' := r.(biggestContributions := biggest, mostChangedFiles := changed, recentFiles := recent);
  }

  /** `_get_author_analysis`, up to the ranked list it renders. */
  method AnalyzeAuthors(root: Option<Node>) returns (ranking: Dict<AuthorStats>)
    ensures ranking == AuthorAnalysis(root)
  {
    var an := new AuthorAnalyzer();
    if root.Some? {
      an.Traverse(root.value, "");
    }
    an.SortAll();
    ranking := SortDesc(an.table, TotalLinesKey);
  }

  /** One more turn of a loop over `e`. */
  lemma EachSnoc(t: Dict<AuthorStats>, e: Dict<int>, i: nat, p: Pass)
    requires i < |e|
    ensures Each(t, e[..i + 1], p) == Put(Each(t, e[..i], p), e[i].0, Apply(p, Rec(Each(t, e[..i], p), e[i].0), e[i].1))
  {
    assert e[..i + 1][..i] == e[..i];
  }

  lemma EachAll(t: Dict<AuthorStats>, e: Dict<int>, p: Pass)
    ensures Each(t, e[..|e|], p) == Each(t, e, p)
  {
    assert e[..|e|] == e;
  }

  lemma {:induction false} TableAfterAppend(t: Dict<AuthorStats>, a: seq<Visit>, b: seq<Visit>)
    ensures TableAfter(t, a + b) == TableAfter(TableAfter(t, a), b)
  {
    if b != [] {
      assert (a + b)[..|a + b| - 1] == a + b[..|b| - 1];
      TableAfterAppend(t, a, b[..|b| - 1]);
    } else {
      assert a + b == a;
    }
  }

  // ---------------------------------------------------------------------
  // The table, author by author.

  /** What the blob branch does to the record of one author `a`. */
  function VisitFor(r: AuthorStats, v: Visit, a: string): AuthorStats {
    var d := v.data;
    var r1 := if HasKey(d.authors, a) then Own(r, Lookup(d.authors, a).value, v) else r;
    var r2 := if HasKey(d.historical, a) then AddLines(r1, Lookup(d.historical, a).value, v) else r1;
    if HasKey(d.authors, a) then AddKinds(AddCommits(r2, d.commits), v) else r2
  }

  /** The record of `a` after the files `w`, built from a fresh record. */
  function AuthorFold(w: seq<Visit>, a: string): AuthorStats {
    if w == [] then NewRecord else VisitFor(AuthorFold(w[..|w| - 1], a), w[|w| - 1], a)
  }

  /** `a` is a key of some file's `authors` or `HISTORICAL` mapping. */
  predicate Mentioned(w: seq<Visit>, a: string) {
    w != [] && (Mentioned(w[..|w| - 1], a) || HasKey(w[|w| - 1].data.authors, a) || HasKey(w[|w| - 1].data.historical, a))
  }

  lemma {:induction false} EachSpec(t: Dict<AuthorStats>, e: Dict<int>, p: Pass, a: string)
    requires DistinctKeys(e)
    ensures Rec(Each(t, e, p), a) == if HasKey(e, a) then Apply(p, Rec(t, a), Lookup(e, a).value) else Rec(t, a)
    ensures HasKey(Each(t, e, p), a) <==> HasKey(t, a) || HasKey(e, a)
  {
    if e != [] {
      var init, last := e[..|e| - 1], e[|e| - 1];
      assert init + [last] == e;
      DistinctAppend(init, last);
      EachSpec(t, init, p, a);
      LookupAppend(init, last, a);
      HasKeyAppend(init, last, a);
    }
  }

  lemma {:induction false} EachDistinct(t: Dict<AuthorStats>, e: Dict<int>, p: Pass)
    requires DistinctKeys(t)
    ensures DistinctKeys(Each(t, e, p))
  {
    if e != [] {
      var t' := Each(t, e[..|e| - 1], p);
      EachDistinct(t, e[..|e| - 1], p);
      PutDistinct(t', e[|e| - 1].0, Apply(p, Rec(t', e[|e| - 1].0), e[|e| - 1].1));
    }
  }

  /** One file changes the record of `a` as `VisitFor` says, enters the
      authors of both its mappings, and keeps the table's keys distinct. */
  lemma StepSpec(t: Dict<AuthorStats>, v: Visit, a: string)
    requires WellFormedBlob(v.data)
    ensures Rec(AuthorStep(t, v), a) == VisitFor(Rec(t, a), v, a)
    ensures HasKey(AuthorStep(t, v), a) <==> HasKey(t, a) || HasKey(v.data.authors, a) || HasKey(v.data.historical, a)
    ensures DistinctKeys(t) ==> DistinctKeys(AuthorStep(t, v))
  {
    var d := v.data;
    var t1 := Each(t, d.authors, Ownership(v));
    var t2 := Each(t1, d.historical, Lines(v));
    var t3 := Each(t2, d.authors, CommitIds(d.commits));
    EachSpec(t, d.authors, Ownership(v), a);
    EachSpec(t1, d.historical, Lines(v), a);
    EachSpec(t2, d.authors, CommitIds(d.commits), a);
    EachSpec(t3, d.authors, Kinds(v), a);
    if DistinctKeys(t) {
      EachDistinct(t, d.authors, Ownership(v));
      EachDistinct(t1, d.historical, Lines(v));
      EachDistinct(t2, d.authors, CommitIds(d.commits));
      EachDistinct(t3, d.authors, Kinds(v));
    }
  }

  /** The table holds a record for exactly the mentioned authors, each the
      per-author fold, under distinct keys. */
  lemma {:induction false} TableSpec(w: seq<Visit>, a: string)
    requires WellFormedVisits(w)
    ensures Rec(TableAfter([], w), a) == AuthorFold(w, a)
    ensures HasKey(TableAfter([], w), a) <==> Mentioned(w, a)
    ensures DistinctKeys(TableAfter([], w))
  {
    if w != [] {
      var w' := w[..|w| - 1];
      assert WellFormedVisits(w') by {
        assert forall i :: 0 <= i < |w'| ==> w'[i] == w[i];
      }
      TableSpec(w', a);
      StepSpec(TableAfter([], w'), w[|w| - 1], a);
    }
  }

  lemma {:induction false} SortRecordsLookup(t: Dict<AuthorStats>, a: string)
    ensures Lookup(SortRecords(t), a) == match Lookup(t, a) case None => None case Some(r) => Some(SortRecord(r))
    ensures HasKey(SortRecords(t), a) <==> HasKey(t, a)
    ensures DistinctKeys(t) ==> DistinctKeys(SortRecords(t))
  {
    if t != [] {
      assert SortRecords(t)[1..] == SortRecords(t[1..]);
      SortRecordsLookup(t[1..], a);
      SortRecordsLookup(t[1..], t[0].0);
    }
  }

  /** After sorting, the table maps every mentioned author, and no other,
      to its record with the three lists sorted; the keys are distinct. */
  lemma AuthorRecords(w: seq<Visit>, a: string)
    requires WellFormedVisits(w)
    ensures Lookup(AuthorTable(w), a) == if Mentioned(w, a) then Some(SortRecord(AuthorFold(w, a))) else None
    ensures DistinctKeys(AuthorTable(w))
  {
    TableSpec(w, a);
    SortRecordsLookup(TableAfter([], w), a);
  }

  // ---------------------------------------------------------------------
  // Reference definitions over the visited files.

  /** The files whose `authors` mapping lists `a`, in order. */
  function Listed(w: seq<Visit>, a: string): seq<Visit> {
    if w == [] then []
    else Listed(w[..|w| - 1], a) + (if HasKey(w[|w| - 1].data.authors, a) then [w[|w| - 1]] else [])
  }

  /** The ownership percentages of `a`, file by file. */
  function Percentages(w: seq<Visit>, a: string): seq<int> {
    if w == [] then []
    else
      var d := w[|w| - 1].data;
      Percentages(w[..|w| - 1], a) + (if HasKey(d.authors, a) then [Lookup(d.authors, a).value] else [])
  }

  predicate IsFull(pct: int) {
    pct == 100
  }

  /** The `HISTORICAL` line counts of `a`, summed over all files. */
  function LinesTotal(w: seq<Visit>, a: string): int {
    if w == [] then 0 else LinesTotal(w[..|w| - 1], a) + Get(w[|w| - 1].data.historical, a)
  }

  /** The files whose `HISTORICAL` mapping lists `a`. */
  function HistoricalCount(w: seq<Visit>, a: string): nat {
    if w == [] then 0
    else HistoricalCount(w[..|w| - 1], a) + (if HasKey(w[|w| - 1].data.historical, a) then 1 else 0)
  }

  /** The `biggest_contributions` entries of `a`: one per file whose
      `HISTORICAL` mapping lists `a`, with the file's path, `a`'s line
      count, the file's size and its commit count, in traversal order. */
  function Contributions(w: seq<Visit>, a: string): seq<Contribution> {
    if w == [] then []
    else
      var v := w[|w| - 1];
      Contributions(w[..|w| - 1], a) +
        if HasKey(v.data.historical, a)
        then [Contribution(v.path, Lookup(v.data.historical, a).value, v.data.sizeInBytes, v.data.noCommits)]
        else []
  }

  // ---------------------------------------------------------------------
  // What each record holds.

  lemma CountIfSnoc(s: seq<int>, x: int)
    ensures CountIf(s + [x], IsFull) == CountIf(s, IsFull) + (if x == 100 then 1 else 0)
  {
    assert (s + [x])[..|s|] == s;
  }

  lemma {:induction false} TouchedBridge(w: seq<Visit>, a: string)
    ensures AuthorFold(w, a).filesTouched == |Listed(w, a)| == |AuthorFold(w, a).fileSizes|
    ensures AuthorFold(w, a).ownership == Percentages(w, a)
  {
    if w != [] {
      TouchedBridge(w[..|w| - 1], a);
    }
  }

  lemma {:induction false} OwnedBridge(w: seq<Visit>, a: string)
    ensures AuthorFold(w, a).filesOwned == CountIf(Percentages(w, a), IsFull)
    ensures AuthorFold(w, a).filesOwned + AuthorFold(w, a).filesShared == |Percentages(w, a)|
  {
    if w != [] {
      var w', v := w[..|w| - 1], w[|w| - 1];
      OwnedBridge(w', a);
      if HasKey(v.data.authors, a) {
        CountIfSnoc(Percentages(w', a), Lookup(v.data.authors, a).value);
      } else {
        assert Percentages(w, a) == Percentages(w', a);
      }
    }
  }

  /** Every file listing `a` is touched once and counted as owned (a
      percentage of exactly 100) or shared; one percentage and one size is
      recorded for it. */
  lemma OwnershipCounts(w: seq<Visit>, a: string)
    ensures var r := AuthorFold(w, a);
      && r.filesTouched == |Listed(w, a)| == |r.ownership| == |r.fileSizes|
      && r.ownership == Percentages(w, a)
      && r.filesOwned + r.filesShared == r.filesTouched
      && r.filesOwned == CountIf(r.ownership, IsFull)
  {
    TouchedBridge(w, a);
    OwnedBridge(w, a);
  }

  /** An author touches no file exactly when no `authors` mapping lists it
      (it may still have historical lines). */
  lemma {:induction false} UntouchedIff(w: seq<Visit>, a: string)
    ensures |Listed(w, a)| == 0 <==> !GlobalStats.ListedAuthor(w, a)
  {
    if w != [] {
      var w' := w[..|w| - 1];
      UntouchedIff(w', a);
      if GlobalStats.ListedAuthor(w', a) {
        var i :| 0 <= i < |w'| && HasKey(w'[i].data.authors, a);
        assert w[i] == w'[i];
      }
      if GlobalStats.ListedAuthor(w, a) && !HasKey(w[|w| - 1].data.authors, a) {
        var i :| 0 <= i < |w| && HasKey(w[i].data.authors, a);
        assert w'[i] == w[i];
      }
    }
  }

  /** `total_lines` sums the author's `HISTORICAL` counts, and
      `biggest_contributions` holds one entry per file that lists the author
      there, with that file's path, lines, size and commits. */
  lemma {:induction false} LineTotals(w: seq<Visit>, a: string)
    ensures AuthorFold(w, a).totalLines == LinesTotal(w, a)
    ensures AuthorFold(w, a).biggestContributions == Contributions(w, a)
    ensures |AuthorFold(w, a).biggestContributions| == HistoricalCount(w, a)
  {
    if w != [] {
      LineTotals(w[..|w| - 1], a);
    }
  }

  /** An entry of `Contributions` is exactly a file listing the author in
      `HISTORICAL`, with its data. */
  lemma {:induction false} ContributionsMembers(w: seq<Visit>, a: string, e: Contribution)
    ensures e in Contributions(w, a) <==>
      exists i :: 0 <= i < |w| && HasKey(w[i].data.historical, a) &&
        e == Contribution(w[i].path, Lookup(w[i].data.historical, a).value, w[i].data.sizeInBytes, w[i].data.noCommits)
  {
    if w != [] {
      var w' := w[..|w| - 1];
      ContributionsMembers(w', a, e);
      assert forall i :: 0 <= i < |w'| ==> w'[i] == w[i];
    }
  }

  /** The commit ids of the files whose `authors` mapping lists `a`. */
  function CommitIdsOf(w: seq<Visit>, a: string): set<string> {
    if w == [] then {}
    else CommitIdsOf(w[..|w| - 1], a) + (if HasKey(w[|w| - 1].data.authors, a) then IdSet(w[|w| - 1].data.commits) else {})
  }

  lemma {:induction false} CommitsBridge(w: seq<Visit>, a: string)
    ensures AuthorFold(w, a).commits == CommitIdsOf(w, a)
  {
    if w != [] {
      CommitsBridge(w[..|w| - 1], a);
    }
  }

  lemma {:induction false} CommitIdsUnion(w: seq<Visit>, a: string)
    ensures forall c :: c in CommitIdsOf(w, a) <==>
      exists i :: 0 <= i < |w| && HasKey(w[i].data.authors, a) && c in w[i].data.commits
  {
    if w != [] {
      var w' := w[..|w| - 1];
      CommitIdsUnion(w', a);
      forall c ensures c in CommitIdsOf(w, a) <==>
        exists i :: 0 <= i < |w| && HasKey(w[i].data.authors, a) && c in w[i].data.commits
      {
        if c in CommitIdsOf(w', a) {
          var i :| 0 <= i < |w'| && HasKey(w'[i].data.authors, a) && c in w'[i].data.commits;
          assert w[i] == w'[i];
        }
        if exists i :: 0 <= i < |w| && HasKey(w[i].data.authors, a) && c in w[i].data.commits {
          var i :| 0 <= i < |w| && HasKey(w[i].data.authors, a) && c in w[i].data.commits;
          if i < |w'| {
            assert w'[i] == w[i];
          }
        }
      }
    }
  }

  /** The commit set is the union of the commit lists of the files whose
      `authors` mapping lists the author. */
  lemma CommitUnion(w: seq<Visit>, a: string)
    ensures forall c :: c in AuthorFold(w, a).commits <==>
      exists i :: 0 <= i < |w| && HasKey(w[i].data.authors, a) && c in w[i].data.commits
  {
    CommitsBridge(w, a);
    CommitIdsUnion(w, a);
  }

  lemma TallySnoc(c: Dict<int>, s: seq<Visit>, v: Visit, key: Visit -> Option<string>)
    ensures Tally(c, s + [v], key) == Bump(Tally(c, s, key), key(v))
  {
    assert (s + [v])[..|s|] == s;
  }

  /** The author's counters are the global ones restricted to the files
      that list the author. */
  lemma {:induction false} AuthorCounters(w: seq<Visit>, a: string)
    ensures AuthorFold(w, a).fileTypes == Tally([], Listed(w, a), GlobalStats.ExtKey)
    ensures AuthorFold(w, a).languages == Tally([], Listed(w, a), GlobalStats.LanguageKey)
    ensures AuthorFold(w, a).directories == Tally([], Listed(w, a), GlobalStats.DirKey)
  {
    if w != [] {
      var w', v := w[..|w| - 1], w[|w| - 1];
      AuthorCounters(w', a);
      if HasKey(v.data.authors, a) {
        TallySnoc([], Listed(w', a), v, GlobalStats.ExtKey);
        TallySnoc([], Listed(w', a), v, GlobalStats.LanguageKey);
        TallySnoc([], Listed(w', a), v, GlobalStats.DirKey);
      } else {
        assert Listed(w, a) == Listed(w', a);
      }
    }
  }

  /** Per author, `file_types[e]` counts the author's files with extension
      `e`, `languages_expertise[l]` those in language `l` and
      `directories[d]` those directly under `d`. */
  lemma AuthorCounts(w: seq<Visit>, a: string, e: string, l: string, d: string)
    ensures Get(AuthorFold(w, a).fileTypes, e) == if e == "" then 0 else GlobalStats.ExtCount(Listed(w, a), e)
    ensures Get(AuthorFold(w, a).languages, l) == GlobalStats.LangCount(Listed(w, a), l)
    ensures Get(AuthorFold(w, a).directories, d) == if d == "" then 0 else GlobalStats.DirCount(Listed(w, a), d)
  {
    AuthorCounters(w, a);
    var s := Listed(w, a);
    TallyCount([], s, GlobalStats.ExtKey, e);
    TallyCount([], s, GlobalStats.LanguageKey, l);
    TallyCount([], s, GlobalStats.DirKey, d);
    GlobalStats.ExtKeyCount(s, e, l);
    GlobalStats.DirKeyCount(s, d);
  }

  lemma FlatMapSnoc<U>(s: seq<Visit>, v: Visit, f: Visit -> seq<U>)
    ensures FlatMap(s + [v], f) == FlatMap(s, f) + f(v)
  {
    assert (s + [v])[..|s|] == s;
  }

  /** Before sorting, the recent and most-changed lists hold one entry per
      qualifying file that lists the author, in traversal order. */
  lemma {:induction false} ActivityLists(w: seq<Visit>, a: string)
    ensures AuthorFold(w, a).recentFiles == FlatMap(Listed(w, a), RecentEntry)
    ensures AuthorFold(w, a).mostChangedFiles == FlatMap(Listed(w, a), ChangedEntry)
  {
    if w != [] {
      var w', v := w[..|w| - 1], w[|w| - 1];
      ActivityLists(w', a);
      if HasKey(v.data.authors, a) {
        FlatMapSnoc(Listed(w', a), v, RecentEntry);
        FlatMapSnoc(Listed(w', a), v, ChangedEntry);
      } else {
        assert Listed(w, a) == Listed(w', a);
      }
    }
  }

  /** Recent files changed after `RecentSince`; most-changed files have more than one commit. */
  lemma {:induction false} Thresholds(s: seq<Visit>)
    ensures forall e :: e in FlatMap(s, RecentEntry) ==> e.timestamp > RecentSince
    ensures forall e :: e in FlatMap(s, ChangedEntry) ==> e.commits > 1
  {
    if s != [] {
      Thresholds(s[..|s| - 1]);
    }
  }

  /** `recent_files`: newest first, ties in traversal order, each changed
      after `RecentSince`, one per listed file changed that recently. */
  lemma RecentFilesRanked(w: seq<Visit>, a: string)
    ensures var s, q := SortRecord(AuthorFold(w, a)).recentFiles, FlatMap(Listed(w, a), RecentEntry);
      && multiset(s) == multiset(q)
      && NonIncreasing(s, TimestampKey)
      && (forall k :: WithKey(s, TimestampKey, k) == WithKey(q, TimestampKey, k))
      && forall e :: e in s ==> e.timestamp > RecentSince
  {
    var q := FlatMap(Listed(w, a), RecentEntry);
    ActivityLists(w, a);
    Thresholds(Listed(w, a));
    SortDescSpec(q, TimestampKey);
    forall e | e in SortDesc(q, TimestampKey) ensures e.timestamp > RecentSince {
      assert e in multiset(q);
    }
  }

  /** `most_changed_files`: most commits first, ties in traversal order,
      each with more than one commit. */
  lemma MostChangedRanked(w: seq<Visit>, a: string)
    ensures var s, q := SortRecord(AuthorFold(w, a)).mostChangedFiles, FlatMap(Listed(w, a), ChangedEntry);
      && multiset(s) == multiset(q)
      && NonIncreasing(s, CommitsKey)
      && (forall k :: WithKey(s, CommitsKey, k) == WithKey(q, CommitsKey, k))
      && forall e :: e in s ==> e.commits > 1
  {
    var q := FlatMap(Listed(w, a), ChangedEntry);
    ActivityLists(w, a);
    Thresholds(Listed(w, a));
    SortDescSpec(q, CommitsKey);
    forall e | e in SortDesc(q, CommitsKey) ensures e.commits > 1 {
      assert e in multiset(q);
    }
  }

  /** `biggest_contributions`: one entry per file whose `HISTORICAL` lists
      the author, most lines first, ties in traversal order. */
  lemma BiggestRanked(w: seq<Visit>, a: string)
    ensures var s, q := SortRecord(AuthorFold(w, a)).biggestContributions, Contributions(w, a);
      && multiset(s) == multiset(q)
      && NonIncreasing(s, LinesKey)
      && forall k :: WithKey(s, LinesKey, k) == WithKey(q, LinesKey, k)
  {
    LineTotals(w, a);
    SortDescSpec(AuthorFold(w, a).biggestContributions, LinesKey);
  }

  /** The report order: by `total_lines`, largest first, authors with equal
      totals in table order; every author appears once. */
  lemma RankingSpec(w: seq<Visit>)
    ensures NonIncreasing(Ranking(w), TotalLinesKey)
    ensures multiset(Ranking(w)) == multiset(AuthorTable(w))
    ensures forall k :: WithKey(Ranking(w), TotalLinesKey, k) == WithKey(AuthorTable(w), TotalLinesKey, k)
  {
    SortDescSpec(AuthorTable(w), TotalLinesKey);
  }
}
