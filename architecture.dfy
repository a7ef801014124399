/** `_analyze_architecture`: architecture patterns and technologies guessed
    from the parent-directory keys of `stats['directories']` (and, for
    TypeScript, from the counted extensions). */
module Architecture {
  import opened Assoc
  import opened PyStr
  import opened Tree
  import opened GlobalStats

  /** The five patterns, declared in the order the source tests them. */
  datatype Pattern = Monorepo | NextAppRouter | CleanArchitecture | Microservices | ComponentBased

  /** The substring a directory key must contain for the pattern to fire. */
  function Needle(p: Pattern): string {
    match p
    case Monorepo => "packages/"
    case NextAppRouter => "src/app"
    case CleanArchitecture => "domain"
    case Microservices => "apps/"
    case ComponentBased => "components"
  }

  /** The position of a pattern's test in the source. */
  function Rank(p: Pattern): nat {
    match p
    case Monorepo => 0
    case NextAppRouter => 1
    case CleanArchitecture => 2
    case Microservices => 3
    case ComponentBased => 4
  }

  /** The technologies, in the order the source tests them. */
  datatype Tech = Firebase | Drizzle | Tailwind | ESLint | TypeScript

  /** The substring a lower-cased directory key must contain. */
  function TechNeedle(t: Tech): string {
    match t
    case Firebase => "firebase"
    case Drizzle => "drizzle"
    case Tailwind => "tailwind"
    case ESLint => "eslint"
    case TypeScript => "typescript"
  }

  function TechRank(t: Tech): nat {
    match t
    case Firebase => 0
    case Drizzle => 1
    case Tailwind => 2
    case ESLint => 3
    case TypeScript => 4
  }

  /** `any(needle in d for d in dirs)` */
  predicate AnyContains(dirs: seq<string>, needle: string) {
    dirs != [] && (Contains(dirs[0], needle) || AnyContains(dirs[1..], needle))
  }

  /** `[d.lower() for d in dirs]` */
  function LowerAll(dirs: seq<string>): (r: seq<string>)
    ensures |r| == |dirs|
    ensures forall i :: 0 <= i < |dirs| ==> r[i] == Lower(dirs[i])
  {
    seq(|dirs|, i requires 0 <= i < |dirs| => Lower(dirs[i]))
  }

  predicate PatternFires(dirs: seq<string>, p: Pattern) {
    AnyContains(dirs, Needle(p))
  }

  predicate TechFires(dirs: seq<string>, fileTypes: Dict<int>, t: Tech) {
    AnyContains(LowerAll(dirs), TechNeedle(t)) || (t == TypeScript && HasKey(fileTypes, ".ts"))
  }

  /** The body of `_analyze_architecture`: one test per pattern and per
      technology, each appending when it holds. */
  method AnalyzeArchitecture(directories: Dict<int>, fileTypes: Dict<int>) returns (patterns: seq<Pattern>, techStack: seq<Tech>)
    ensures forall p :: p in patterns <==> PatternFires(Keys(directories), p)
    ensures forall i, j :: 0 <= i < j < |patterns| ==> Rank(patterns[i]) < Rank(patterns[j])
    ensures forall t :: t in techStack <==> TechFires(Keys(directories), fileTypes, t)
    ensures forall i, j :: 0 <= i < j < |techStack| ==> TechRank(techStack[i]) < TechRank(techStack[j])
  {
    patterns := DetectPatterns(Keys(directories));
    techStack := DetectTech(Keys(directories), fileTypes);
  }

  /** Every pattern, in rank order. */
  const AllPatterns: seq<Pattern> := [Monorepo, NextAppRouter, CleanArchitecture, Microservices, ComponentBased]

  lemma PatternListed(p: Pattern)
    ensures p in AllPatterns && Rank(p) < |AllPatterns| && AllPatterns[Rank(p)] == p
  {
  }

  /** The patterns among those tested first (rank below `k`) that are in
      `fired`, in rank order. */
  predicate PatternsSoFar(fired: set<Pattern>, patterns: seq<Pattern>, k: nat) {
    && (forall p :: p in patterns <==> Rank(p) < k && p in fired)
    && (forall i, j :: 0 <= i < j < |patterns| ==> Rank(patterns[i]) < Rank(patterns[j]))
  }

  /** One pattern test: append `p` when it fires. */
  method TestPattern(dirs: seq<string>, ghost fired: set<Pattern>, patterns: seq<Pattern>, p: Pattern) returns (r: seq<Pattern>)
    requires p in fired <==> PatternFires(dirs, p)
    requires PatternsSoFar(fired, patterns, Rank(p))
    ensures PatternsSoFar(fired, r, Rank(p) + 1)
  {
    r := patterns;
    if AnyContains(dirs, Needle(p)) {
      r := r + [p];
    }
  }

  /** The five pattern tests. */
  method DetectPatterns(dirs: seq<string>) returns (patterns: seq<Pattern>)
    ensures forall p :: p in patterns <==> PatternFires(dirs, p)
    ensures forall i, j :: 0 <= i < j < |patterns| ==> Rank(patterns[i]) < Rank(patterns[j])
  {
    ghost var fired := set p | p in AllPatterns && PatternFires(dirs, p);
    forall p ensures p in fired <==> PatternFires(dirs, p) {
      PatternListed(p);
    }
    patterns := [];
    patterns := TestPattern(dirs, fired, patterns, Monorepo);
    patterns := TestPattern(dirs, fired, patterns, NextAppRouter);
    patterns := TestPattern(dirs, fired, patterns, CleanArchitecture);
    patterns := TestPattern(dirs, fired, patterns, Microservices);
    patterns := TestPattern(dirs, fired, patterns, ComponentBased);
    forall p ensures p in patterns <==> PatternFires(dirs, p) {
      PatternListed(p);
    }
  }

  /** Every technology, in rank order. */
  const AllTech: seq<Tech> := [Firebase, Drizzle, Tailwind, ESLint, TypeScript]

  lemma TechListed(t: Tech)
    ensures t in AllTech && TechRank(t) < |AllTech| && AllTech[TechRank(t)] == t
  {
  }

  /** The technologies among those tested first (rank below `k`) that are
      in `fired`, in rank order. */
  predicate TechSoFar(fired: set<Tech>, techStack: seq<Tech>, k: nat) {
    && (forall t :: t in techStack <==> TechRank(t) < k && t in fired)
    && (forall i, j :: 0 <= i < j < |techStack| ==> TechRank(techStack[i]) < TechRank(techStack[j]))
  }

  /** One technology test on the lower-cased keys `filesFound`. */
  method TestTech(dirs: seq<string>, fileTypes: Dict<int>, filesFound: seq<string>, ghost fired: set<Tech>,
                  techStack: seq<Tech>, t: Tech) returns (r: seq<Tech>)
    requires filesFound == LowerAll(dirs)
    requires t in fired <==> TechFires(dirs, fileTypes, t)
    requires TechSoFar(fired, techStack, TechRank(t))
    ensures TechSoFar(fired, r, TechRank(t) + 1)
  {
    r := techStack;
    if AnyContains(filesFound, TechNeedle(t)) || (t == TypeScript && HasKey(fileTypes, ".ts")) {
      r := r + [t];
    }
  }

  /** The five technology tests; only TypeScript also looks at the
      extension counter. */
  method DetectTech(dirs: seq<string>, fileTypes: Dict<int>) returns (techStack: seq<Tech>)
    ensures forall t :: t in techStack <==> TechFires(dirs, fileTypes, t)
    ensures forall i, j :: 0 <= i < j < |techStack| ==> TechRank(techStack[i]) < TechRank(techStack[j])
  {
    ghost var fired := set t | t in AllTech && TechFires(dirs, fileTypes, t);
    forall t ensures t in fired <==> TechFires(dirs, fileTypes, t) {
      TechListed(t);
    }
    var filesFound := LowerAll(dirs);
    techStack := [];
    techStack := TestTech(dirs, fileTypes, filesFound, fired, techStack, Firebase);
    techStack := TestTech(dirs, fileTypes, filesFound, fired, techStack, Drizzle);
    techStack := TestTech(dirs, fileTypes, filesFound, fired, techStack, Tailwind);
    techStack := TestTech(dirs, fileTypes, filesFound, fired, techStack, ESLint);
    techStack := TestTech(dirs, fileTypes, filesFound, fired, techStack, TypeScript);
    forall t ensures t in techStack <==> TechFires(dirs, fileTypes, t) {
      TechListed(t);
    }
  }

  // ---------------------------------------------------------------------
  // What the tests detect.

  lemma {:induction false} AnyContainsSpec(dirs: seq<string>, needle: string)
    ensures AnyContains(dirs, needle) <==> exists d :: d in dirs && Contains(d, needle)
  {
    if dirs != [] {
      AnyContainsSpec(dirs[1..], needle);
      assert dirs == [dirs[0]] + dirs[1..];
    }
  }

  lemma NoNeedleInEmpty(needle: string)
    requires needle != ""
    ensures !Contains("", needle)
  {
  }

  /** The parent directory of some file of `w` contains `n`. */
  ghost predicate ParentContains(w: seq<Visit>, n: string) {
    exists i :: 0 <= i < |w| && Contains(DirName(w[i].path), n)
  }

  /** The lower-cased parent directory of some file of `w` contains `n`. */
  ghost predicate LowerParentContains(w: seq<Visit>, n: string) {
    exists i :: 0 <= i < |w| && Contains(Lower(DirName(w[i].path)), n)
  }

  /** Some lower-cased directory key contains `n`. */
  ghost predicate LowerKeyContains(dirs: seq<string>, n: string) {
    exists d :: d in dirs && Contains(Lower(d), n)
  }

  /** Some file of `w` sits directly in directory `d`. */
  ghost predicate IsParent(w: seq<Visit>, d: string) {
    exists i :: 0 <= i < |w| && DirName(w[i].path) == d
  }

  lemma IsParentSnoc(w: seq<Visit>, d: string)
    requires w != []
    ensures IsParent(w, d) <==> IsParent(w[..|w| - 1], d) || DirName(w[|w| - 1].path) == d
  {
    var w' := w[..|w| - 1];
    forall i | 0 <= i < |w'| ensures w'[i].path == w[i].path {
    }
    if IsParent(w, d) && DirName(w[|w| - 1].path) != d {
      var i :| 0 <= i < |w| && DirName(w[i].path) == d;
      assert 0 <= i < |w'| && DirName(w'[i].path) == d;
    }
  }

  lemma {:induction false} DirCountPositive(w: seq<Visit>, d: string)
    ensures DirCount(w, d) > 0 <==> IsParent(w, d)
  {
    if w != [] {
      DirCountPositive(w[..|w| - 1], d);
      IsParentSnoc(w, d);
    }
  }

  /** The directory keys are the non-empty parent paths of the files. */
  lemma DirectoryKeys(w: seq<Visit>, d: string)
    ensures d in Keys(StatsOf(w).directories) <==> d != "" && IsParent(w, d)
  {
    HasKeyIsKey(StatsOf(w).directories, d);
    Directories(w, d);
    DirCountPositive(w, d);
  }

  /** The parent path of a file, unless empty, is a directory key. */
  lemma ParentIsKey(w: seq<Visit>, i: int)
    requires 0 <= i < |w| && DirName(w[i].path) != ""
    ensures DirName(w[i].path) in Keys(StatsOf(w).directories)
  {
    DirectoryKeys(w, DirName(w[i].path));
  }

  /** A pattern is reported exactly when the parent directory of some file
      contains its needle; the directory keys are parent paths only, so a
      file's own name never counts. */
  lemma PatternsOfFiles(w: seq<Visit>, p: Pattern)
    ensures PatternFires(Keys(StatsOf(w).directories), p) <==> ParentContains(w, Needle(p))
  {
    var n := Needle(p);
    var dirs := Keys(StatsOf(w).directories);
    AnyContainsSpec(dirs, n);
    NoNeedleInEmpty(n);
    if AnyContains(dirs, n) {
      var d :| d in dirs && Contains(d, n);
      DirectoryKeys(w, d);
    }
    if ParentContains(w, n) {
      var i :| 0 <= i < |w| && Contains(DirName(w[i].path), n);
      ParentIsKey(w, i);
    }
  }

  /** Some lower-cased directory key contains `n` exactly when the
      lower-cased parent directory of some file does. */
  lemma LowerKeysOfFiles(w: seq<Visit>, n: string)
    requires n != ""
    ensures LowerKeyContains(Keys(StatsOf(w).directories), n) <==> LowerParentContains(w, n)
  {
    var dirs := Keys(StatsOf(w).directories);
    NoNeedleInEmpty(n);
    if LowerKeyContains(dirs, n) {
      var d :| d in dirs && Contains(Lower(d), n);
      DirectoryKeys(w, d);
    }
    if LowerParentContains(w, n) {
      var i :| 0 <= i < |w| && Contains(Lower(DirName(w[i].path)), n);
      assert Lower("") == "";
      ParentIsKey(w, i);
    }
  }

  /** A technology is reported exactly when the lower-cased parent directory
      of some file contains its needle or, for TypeScript only, when some
      file has the (lower-cased) extension `.ts`. */
  lemma TechOfFiles(w: seq<Visit>, t: Tech)
    ensures TechFires(Keys(StatsOf(w).directories), StatsOf(w).fileTypes, t) <==>
            LowerParentContains(w, TechNeedle(t)) || (t == TypeScript && ExtCount(w, ".ts") > 0)
  {
    var st := StatsOf(w);
    TypeScriptByExtension(w);
    LowerKeysOfFiles(w, TechNeedle(t));
    TechFromKeys(Keys(st.directories), st.fileTypes, w, t);
  }

  /** The step from the directory keys and the extension counter to the files. */
  lemma TechFromKeys(dirs: seq<string>, fileTypes: Dict<int>, w: seq<Visit>, t: Tech)
    requires LowerKeyContains(dirs, TechNeedle(t)) <==> LowerParentContains(w, TechNeedle(t))
    requires HasKey(fileTypes, ".ts") <==> ExtCount(w, ".ts") > 0
    ensures TechFires(dirs, fileTypes, t) <==>
            LowerParentContains(w, TechNeedle(t)) || (t == TypeScript && ExtCount(w, ".ts") > 0)
  {
    TechOfDirectories(dirs, fileTypes, t);
  }

  /** A file directly inside `apps` has the directory key `apps`, which does
      not contain `apps/`, so it does not report microservices; a file one
      level further down does. */
  lemma MicroservicesNeedSubdirectory(sub: string, name: string)
    requires sub != "" && '/' !in sub && '/' !in name
    ensures DirName(ChildPath("apps", name)) == "apps"
    ensures !Contains(DirName(ChildPath("apps", name)), Needle(Microservices))
    ensures Contains(DirName(ChildPath(ChildPath("apps", sub), name)), Needle(Microservices))
  {
    DirNameChild("apps", name);
    var parent := ChildPath("apps", sub);
    assert parent[|parent| - 1] == sub[|sub| - 1];
    DirNameChild(parent, name);
    assert OccursAt(parent, "apps/", 0);
  }

  /** A technology is reported exactly when some lower-cased directory key
      contains its needle or, for TypeScript only, when `.ts` was counted. */
  lemma TechOfDirectories(dirs: seq<string>, fileTypes: Dict<int>, t: Tech)
    ensures TechFires(dirs, fileTypes, t) <==>
            LowerKeyContains(dirs, TechNeedle(t)) || (t == TypeScript && HasKey(fileTypes, ".ts"))
  {
    var low := LowerAll(dirs);
    AnyContainsSpec(low, TechNeedle(t));
    if exists d :: d in low && Contains(d, TechNeedle(t)) {
      var d :| d in low && Contains(d, TechNeedle(t));
      var i :| 0 <= i < |low| && low[i] == d;
      assert dirs[i] in dirs;
    }
    if LowerKeyContains(dirs, TechNeedle(t)) {
      var d :| d in dirs && Contains(Lower(d), TechNeedle(t));
      var i :| 0 <= i < |dirs| && dirs[i] == d;
      assert low[i] in low;
    }
  }

  /** The `.ts` test fires exactly when some file has the extension `.ts`
      (after lower-casing, so `.TS` counts too). */
  lemma TypeScriptByExtension(w: seq<Visit>)
    ensures HasKey(StatsOf(w).fileTypes, ".ts") <==> ExtCount(w, ".ts") > 0
  {
    TallyCount([], w, ExtKey, ".ts");
    ExtKeyCount(w, ".ts", "");
  }
}
