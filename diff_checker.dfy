/** `ia_diff_checker.py`: the added lines of a unified diff, grouped by the
    file named in each `diff --git a/… b/…` header; the suffix whitelist that
    decides which files are code; and the text sent to the prediction
    service. */
module DiffChecker {
  import opened Optional
  import opened PyStr
  import opened Assoc

  // ---------------------------------------------------------------------
  // The header regex `diff --git a/(.+) b/(.+)`, searched in one line.

  /** One way the regex can match: the literal `diff --git a/` at `p`, a
      non-empty first group, the literal ` b/` at `q` and a non-empty second
      group running to the end of the line (`.` matches everything but a
      newline, and a line never holds one). */
  predicate HeaderMatch(line: string, p: int, q: int) {
    OccursAt(line, "diff --git a/", p) && p + 14 <= q && q + 3 < |line| && OccursAt(line, " b/", q)
  }

  /** The match the regex engine reports: the leftmost `diff --git a/`, and
      after it the rightmost ` b/` that still leaves both groups non-empty. */
  ghost predicate Greedy(line: string, q: int) {
    var p := Find(line, "diff --git a/", 0);
    HeaderMatch(line, p, q) && forall k :: q < k ==> !HeaderMatch(line, p, k)
  }

  /** The last ` b/` at an index in `[lo, hi]`, or -1. */
  function LastSep(line: string, lo: int, hi: int): (q: int)
    ensures q == -1 || (lo <= q <= hi && OccursAt(line, " b/", q))
    ensures q == -1 ==> forall k :: lo <= k <= hi ==> !OccursAt(line, " b/", k)
    ensures q != -1 ==> forall k :: q < k <= hi ==> !OccursAt(line, " b/", k)
    decreases hi - lo + 1
  {
    if hi < lo then -1
    else if OccursAt(line, " b/", hi) then hi
    else LastSep(line, lo, hi - 1)
  }

  /** `match.group(2)`, or `None` when the search fails: the leftmost start
      wins, and the greedy first group pushes the ` b/` as far right as it
      can go. */
  function HeaderName(line: string): Option<string> {
    var p := Find(line, "diff --git a/", 0);
    if p == -1 then None
    else
      var q := LastSep(line, p + 14, |line| - 4);
      if q == -1 then None else Some(line[q + 3..])
  }

  /** The search succeeds exactly when some match exists; group 2 is then the
      text after the last ` b/` that leaves both groups non-empty, counted
      from the first `diff --git a/`. */
  lemma HeaderNameSpec(line: string)
    requires '\n' !in line
    ensures HeaderName(line).Some? <==> exists p, q :: HeaderMatch(line, p, q)
    ensures HeaderName(line).Some? ==> exists q :: Greedy(line, q) && HeaderName(line).value == line[q + 3..]
    ensures HeaderName(line).Some? ==> HeaderName(line).value != "" && '\n' !in HeaderName(line).value
  {
    var p := Find(line, "diff --git a/", 0);
    if exists p', q :: HeaderMatch(line, p', q) {
      var p', q :| HeaderMatch(line, p', q);
      assert p != -1 && p <= p';
      assert HeaderMatch(line, p, q);
    }
    if p != -1 {
      var q := LastSep(line, p + 14, |line| - 4);
      if q != -1 {
        assert HeaderMatch(line, p, q);
        assert line == line[..q + 3] + line[q + 3..];
        forall k | q < k ensures !HeaderMatch(line, p, k) {
          if k <= |line| - 4 {
            assert !OccursAt(line, " b/", k);
          }
        }
        assert HeaderName(line) == Some(line[q + 3..]);
        assert Greedy(line, q);
      }
    }
  }

  // ---------------------------------------------------------------------
  // The line-driven state machine.

  /** `files_code`, `current_file` and `current_lines`. */
  datatype Scanner = Scanner(files: Dict<seq<string>>, current: Option<string>, lines: seq<string>)

  const Init := Scanner([], None, [])

  /** A `diff --git` line whose header search succeeds names the file that
      follows. */
  function Header(line: string): Option<string> {
    if StartsWith(line, "diff --git") then HeaderName(line) else None
  }

  /** A line that counts as added code: `+` but not `+++`, with something
      other than whitespace after the `+`. */
  predicate AddedLine(line: string) {
    StartsWith(line, "+") && !StartsWith(line, "+++") && !StartsWith(line, "@@") && Strip(line[1..]) != ""
  }

  /** `if current_file and current_lines: files_code[current_file] = current_lines.copy()` */
  function Flush(st: Scanner): Dict<seq<string>> {
    if st.current.Some? && st.lines != [] then Put(st.files, st.current.value, st.lines) else st.files
  }

  /** One iteration of the loop. */
  function Feed(st: Scanner, line: string): Scanner {
    if StartsWith(line, "diff --git") then
      match HeaderName(line)
      case Some(name) => Scanner(Flush(st), Some(name), [])
      case None => st.(files := Flush(st))
    else if AddedLine(line) then st.(lines := st.lines + [line[1..]])
    else st
  }

  function ScanAll(st: Scanner, ls: seq<string>): Scanner {
    if ls == [] then st else Feed(ScanAll(st, ls[..|ls| - 1]), ls[|ls| - 1])
  }

  /** What `extract_added_lines_by_file` returns. */
  function ExtractAdded(diff: string): Dict<seq<string>> {
    Flush(ScanAll(Init, Split(diff, '\n')))
  }

  /** `extract_added_lines_by_file` */
  method ExtractAddedLinesByFile(diffContent: string) returns (filesCode: Dict<seq<string>>)
    ensures filesCode == ExtractAdded(diffContent)
  {
    var ls := Split(diffContent, '\n');
    filesCode := [];
    var currentFile: Option<string> := None;
    var currentLines: seq<string> := [];
    var i := 0;
    while i < |ls|
      invariant 0 <= i <= |ls|
      invariant Scanner(filesCode, currentFile, currentLines) == ScanAll(Init, ls[..i])
    {
      filesCode, currentFile, currentLines := ScanLine(filesCode, currentFile, currentLines, ls[i]);
      ghost var prev := i;
      i := i + 1;
      ScanAllNext(ls, prev, i);
    }
    assert ls[..i] == ls;
    if currentFile.Some? && currentLines != [] {
      filesCode := Put(filesCode, currentFile.value, currentLines);
    }
  }

  /** The body of the loop over the lines. */
  method ScanLine(filesCode: Dict<seq<string>>, currentFile: Option<string>, currentLines: seq<string>, line: string)
    returns (filesCode': Dict<seq<string>>, currentFile': Option<string>, currentLines': seq<string>)
    ensures Scanner(filesCode', currentFile', currentLines') == Feed(Scanner(filesCode, currentFile, currentLines), line)
  {
    filesCode', currentFile', currentLines' := filesCode, currentFile, currentLines;
    if StartsWith(line, "diff --git") {
      if currentFile.Some? && currentLines != [] {
        filesCode' := Put(filesCode, currentFile.value, currentLines);
      }
      var m := HeaderName(line);
      if m.Some? {
        currentFile' := m;
        currentLines' := [];
      }
    } else if StartsWith(line, "+") && !StartsWith(line, "+++") && !StartsWith(line, "@@") {
      var addedLine := line[1..];
      if Strip(addedLine) != "" {
        currentLines' := currentLines + [addedLine];
      }
    }
  }

  lemma ScanAllNext(ls: seq<string>, i: nat, next: nat)
    requires i < |ls| && next == i + 1
    ensures ScanAll(Init, ls[..next]) == Feed(ScanAll(Init, ls[..i]), ls[i])
  {
    assert ls[..next][..i] == ls[..i];
  }

  // ---------------------------------------------------------------------
  // Reference view: the diff cut into sections.

  /** A header line, the file it names, and the lines up to the next header. */
  datatype Section = Section(header: string, name: string, body: seq<string>)

  /** The sections of `ls`; lines before the first header belong to none. */
  function Sections(ls: seq<string>): seq<Section> {
    if ls == [] then [] else NextSections(Sections(ls[..|ls| - 1]), ls[|ls| - 1])
  }

  /** A header opens a new section; any other line joins the open one. */
  function NextSections(secs: seq<Section>, line: string): seq<Section> {
    match Header(line)
    case Some(name) => secs + [Section(line, name, [])]
    case None =>
      if secs == [] then []
      else secs[..|secs| - 1] + [secs[|secs| - 1].(body := secs[|secs| - 1].body + [line])]
  }

  /** What a line contributes to its file: the text after the `+`, if it counts. */
  function AddedOf(line: string): seq<string> {
    if AddedLine(line) then [line[1..]] else []
  }

  /** The added lines of a section body, in diff order. */
  function Added(body: seq<string>): seq<string> {
    FlatMap(body, AddedOf)
  }

  /** Each section with added lines records them under its file name; a
      later section for the same name replaces the earlier lines. */
  function Collect(secs: seq<Section>): Dict<seq<string>> {
    if secs == [] then []
    else
      var s := secs[|secs| - 1];
      var d := Collect(secs[..|secs| - 1]);
      if Added(s.body) != [] then Put(d, s.name, Added(s.body)) else d
  }

  lemma {:induction false} PutPut<V>(d: Dict<V>, k: string, a: V, b: V)
    ensures Put(Put(d, k, a), k, b) == Put(d, k, b)
  {
    if d != [] && d[0].0 != k {
      PutPut(d[1..], k, a, b);
    }
  }

  /** How the scanner state after a prefix of the lines relates to the
      sections of that prefix. A header that fails the search stores the
      lines seen so far early; that entry is overwritten by the next store
      for the same file. */
  ghost predicate Tracks(st: Scanner, secs: seq<Section>) {
    if secs == [] then st.current == None && st.files == []
    else
      var s := secs[|secs| - 1];
      var done := Collect(secs[..|secs| - 1]);
      && st.current == Some(s.name)
      && st.lines == Added(s.body)
      && (st.files == done || (st.lines != [] && Put(st.files, s.name, st.lines) == Put(done, s.name, st.lines)))
  }

  lemma AddedSnoc(body: seq<string>, line: string)
    ensures Added(body + [line]) == Added(body) + AddedOf(line)
  {
    assert (body + [line])[..|body|] == body;
  }

  lemma {:induction false} ScanTracks(ls: seq<string>)
    ensures Tracks(ScanAll(Init, ls), Sections(ls))
  {
    if ls != [] {
      ScanTracks(ls[..|ls| - 1]);
      FeedTracks(ScanAll(Init, ls[..|ls| - 1]), Sections(ls[..|ls| - 1]), ls[|ls| - 1]);
    }
  }

  lemma FeedTracks(st: Scanner, secs: seq<Section>, line: string)
    requires Tracks(st, secs)
    ensures Tracks(Feed(st, line), NextSections(secs, line))
  {
    if secs != [] {
      if Header(line).Some? {
        FeedHeader(st, secs, line);
      } else if StartsWith(line, "diff --git") {
        FeedBrokenHeader(st, secs, line);
      } else {
        FeedBody(st, secs, line);
      }
    }
  }

  /** The pending early store, if any, is what the final store overwrites. */
  lemma FlushTracks(st: Scanner, secs: seq<Section>)
    requires secs != [] && Tracks(st, secs)
    ensures Flush(st) == Collect(secs)
  {
  }

  lemma FeedHeader(st: Scanner, secs: seq<Section>, line: string)
    requires secs != [] && Tracks(st, secs) && Header(line).Some?
    ensures Tracks(Feed(st, line), NextSections(secs, line))
  {
    FlushTracks(st, secs);
    var secs' := NextSections(secs, line);
    assert secs'[..|secs'| - 1] == secs;
  }

  lemma FeedBrokenHeader(st: Scanner, secs: seq<Section>, line: string)
    requires secs != [] && Tracks(st, secs) && Header(line).None? && StartsWith(line, "diff --git")
    ensures Tracks(Feed(st, line), NextSections(secs, line))
  {
    var s := secs[|secs| - 1];
    var done := Collect(secs[..|secs| - 1]);
    var s' := s.(body := s.body + [line]);
    var secs' := secs[..|secs| - 1] + [s'];
    assert NextSections(secs, line) == secs';
    assert secs'[..|secs'| - 1] == secs[..|secs| - 1];
    assert line[0] == 'd';
    assert line[..1] != "+" by {
      assert line[..1][0] == 'd';
    }
    assert !AddedLine(line);
    AddedSnoc(s.body, line);
    assert Added(s'.body) == st.lines;
    var st' := st.(files := Flush(st));
    assert Feed(st, line) == st';
    if st.lines != [] {
      PutPut(done, s.name, st.lines, st.lines);
      assert Put(st'.files, s.name, st.lines) == Put(done, s.name, st.lines);
    }
  }

  lemma FeedBody(st: Scanner, secs: seq<Section>, line: string)
    requires secs != [] && Tracks(st, secs) && !StartsWith(line, "diff --git")
    ensures Tracks(Feed(st, line), NextSections(secs, line))
  {
    var s := secs[|secs| - 1];
    var done := Collect(secs[..|secs| - 1]);
    AddedSnoc(s.body, line);
    var secs' := NextSections(secs, line);
    assert secs'[..|secs'| - 1] == secs[..|secs| - 1];
    if st.lines != [] && st.files != done {
      var lines' := Feed(st, line).lines;
      PutPut(st.files, s.name, st.lines, lines');
      PutPut(done, s.name, st.lines, lines');
    }
  }

  /** `extract_added_lines_by_file` records, for each section whose body has
      added lines, those lines under the section's file name. */
  lemma ExtractAddedSpec(diff: string)
    ensures ExtractAdded(diff) == Collect(Sections(Split(diff, '\n')))
  {
    var ls := Split(diff, '\n');
    ScanTracks(ls);
    if Sections(ls) != [] {
      FlushTracks(ScanAll(Init, ls), Sections(ls));
    }
  }

  /** A file is in `files_code` exactly when a section it heads has a
      non-blank added line; it then maps to the added lines of the last such
      section (a later header for the same file replaces the earlier lines),
      and no file occurs twice. */
  lemma FilesCodeSpec(diff: string, f: string)
    ensures var secs := Sections(Split(diff, '\n'));
      && (HasKey(ExtractAdded(diff), f) <==> Recorded(secs, f))
      && (HasKey(ExtractAdded(diff), f) ==>
            exists i :: LastRecorded(secs, f, i) && Lookup(ExtractAdded(diff), f) == Some(Added(secs[i].body)))
      && DistinctKeys(ExtractAdded(diff))
  {
    var secs := Sections(Split(diff, '\n'));
    ExtractAddedSpec(diff);
    CollectKeys(secs, f);
    CollectDistinct(secs);
    if HasKey(ExtractAdded(diff), f) {
      CollectLast(secs, f);
    }
  }

  /** Section `i` is the last one for `f` that has added lines. */
  ghost predicate LastRecorded(secs: seq<Section>, f: string, i: int) {
    && 0 <= i < |secs| && secs[i].name == f && Added(secs[i].body) != []
    && forall j :: i < j < |secs| && secs[j].name == f ==> Added(secs[j].body) == []
  }

  /** Some section of `f` has a non-blank added line. */
  ghost predicate Recorded(secs: seq<Section>, f: string) {
    exists s :: s in secs && s.name == f && Added(s.body) != []
  }

  lemma RecordedSnoc(secs: seq<Section>, f: string)
    requires secs != []
    ensures Recorded(secs, f) <==>
      Recorded(secs[..|secs| - 1], f) || (secs[|secs| - 1].name == f && Added(secs[|secs| - 1].body) != [])
  {
    assert secs == secs[..|secs| - 1] + [secs[|secs| - 1]];
  }

  /** Every name occurs once in the result. */
  lemma {:induction false} CollectDistinct(secs: seq<Section>)
    ensures DistinctKeys(Collect(secs))
  {
    if secs != [] {
      var s := secs[|secs| - 1];
      CollectDistinct(secs[..|secs| - 1]);
      if Added(s.body) != [] {
        PutDistinct(Collect(secs[..|secs| - 1]), s.name, Added(s.body));
      }
    }
  }

  /** A file is in the result exactly when one of its sections has a
      non-blank added line. */
  lemma {:induction false} CollectKeys(secs: seq<Section>, f: string)
    ensures HasKey(Collect(secs), f) <==> Recorded(secs, f)
  {
    if secs != [] {
      var init, s := secs[..|secs| - 1], secs[|secs| - 1];
      CollectKeys(init, f);
      RecordedSnoc(secs, f);
      var d := Collect(init);
      if Added(s.body) != [] {
        CollectDistinct(init);
        PutDistinct(d, s.name, Added(s.body));
        assert Lookup(Put(d, s.name, Added(s.body)), f) == if f == s.name then Some(Added(s.body)) else Lookup(d, f);
      }
    }
  }

  /** A recorded file maps to the added lines of its last section that has
      any: a later header for the same name replaces the earlier lines. */
  lemma {:induction false} CollectLast(secs: seq<Section>, f: string)
    requires HasKey(Collect(secs), f)
    ensures exists i :: LastRecorded(secs, f, i) && Lookup(Collect(secs), f) == Some(Added(secs[i].body))
  {
    var init, s := secs[..|secs| - 1], secs[|secs| - 1];
    var d := Collect(init);
    if s.name == f && Added(s.body) != [] {
      assert LastRecorded(secs, f, |secs| - 1);
    } else {
      assert init + [s] == secs;
      CollectSkip(init, s, f);
      CollectLast(init, f);
      var i :| LastRecorded(init, f, i) && Lookup(d, f) == Some(Added(init[i].body));
      assert init + [s] == secs;
      LastRecordedSnoc(init, s, f, i);
      assert secs[i] == init[i];
      assert LastRecorded(secs, f, i) && Lookup(Collect(secs), f) == Some(Added(secs[i].body));
    }
  }

  /** A section that records nothing for `f` leaves its entry alone. */
  lemma CollectSkip(secs: seq<Section>, s: Section, f: string)
    requires s.name != f || Added(s.body) == []
    ensures Lookup(Collect(secs + [s]), f) == Lookup(Collect(secs), f)
  {
    assert (secs + [s])[..|secs|] == secs;
  }

  lemma LastRecordedSnoc(secs: seq<Section>, s: Section, f: string, i: int)
    requires LastRecorded(secs, f, i)
    requires s.name != f || Added(s.body) == []
    ensures LastRecorded(secs + [s], f, i)
  {
    var secs' := secs + [s];
    forall j | i < j < |secs'| && secs'[j].name == f ensures Added(secs'[j].body) == [] {
      if j < |secs| {
        assert secs'[j] == secs[j];
      }
    }
  }

  /** Every section starts at a header that names its file, and no body line
      is such a header; there is one section per header line. */
  lemma {:induction false} SectionsSpec(ls: seq<string>)
    ensures forall k :: 0 <= k < |Sections(ls)| ==> Header(Sections(ls)[k].header) == Some(Sections(ls)[k].name)
    ensures forall k, j :: 0 <= k < |Sections(ls)| && 0 <= j < |Sections(ls)[k].body| ==> Header(Sections(ls)[k].body[j]).None?
    ensures |Sections(ls)| == CountIf(ls, IsHeader)
  {
    if ls != [] {
      var init := ls[..|ls| - 1];
      SectionsSpec(init);
      CountIfAppend(init, [ls[|ls| - 1]], IsHeader);
      CountIfOne(ls[|ls| - 1], IsHeader);
      assert init + [ls[|ls| - 1]] == ls;
    }
  }

  predicate IsHeader(line: string) {
    Header(line).Some?
  }

  /** Lines before the first header, `+` lines included, are never stored. */
  lemma {:induction false} PreambleDropped(pre: seq<string>, rest: seq<string>)
    requires forall i :: 0 <= i < |pre| ==> Header(pre[i]).None?
    requires rest != [] && Header(rest[0]).Some?
    ensures Sections(pre + rest) == Sections(rest)
  {
    if |rest| == 1 {
      NoHeaderNoSections(pre);
      assert (pre + rest)[..|pre + rest| - 1] == pre;
      assert rest[..0] == [];
    } else {
      var r := rest[..|rest| - 1];
      PreambleDropped(pre, r);
      assert (pre + rest)[..|pre + rest| - 1] == pre + r;
      SectionsNonEmpty(r);
    }
  }

  lemma {:induction false} NoHeaderNoSections(ls: seq<string>)
    requires forall i :: 0 <= i < |ls| ==> Header(ls[i]).None?
    ensures Sections(ls) == []
  {
    if ls != [] {
      NoHeaderNoSections(ls[..|ls| - 1]);
    }
  }

  lemma {:induction false} SectionsNonEmpty(ls: seq<string>)
    requires ls != [] && Header(ls[0]).Some?
    ensures Sections(ls) != []
  {
    if |ls| > 1 {
      SectionsNonEmpty(ls[..|ls| - 1]);
    }
  }

  // ---------------------------------------------------------------------
  // Which files are code, and the text sent for each.

  const CodeExtensions: seq<string> := [".py", ".js", ".ts", ".jsx", ".tsx", ".java", ".cpp", ".c", ".go", ".rs"]

  /** `any(file_path.endswith(ext) for ext in exts)` */
  predicate AnyEndsWith(filePath: string, exts: seq<string>) {
    exts != [] && (EndsWith(filePath, exts[0]) || AnyEndsWith(filePath, exts[1..]))
  }

  /** `should_analyze_file` */
  predicate ShouldAnalyzeFile(filePath: string) {
    AnyEndsWith(filePath, CodeExtensions)
  }

  lemma {:induction false} AnyEndsWithSpec(filePath: string, exts: seq<string>)
    ensures AnyEndsWith(filePath, exts) <==> exists i :: 0 <= i < |exts| && EndsWith(filePath, exts[i])
  {
    if exts != [] {
      AnyEndsWithSpec(filePath, exts[1..]);
      if exists i :: 0 <= i < |exts| && EndsWith(filePath, exts[i]) {
        var i :| 0 <= i < |exts| && EndsWith(filePath, exts[i]);
        if i > 0 {
          assert exts[1..][i - 1] == exts[i];
        }
      }
    }
  }

  /** The whitelist is a suffix test: any path that ends in one of the
      listed extensions is code, whatever comes before it. */
  lemma CodeSuffix(stem: string, ext: string)
    requires ext in CodeExtensions
    ensures ShouldAnalyzeFile(stem + ext)
  {
    var i :| 0 <= i < |CodeExtensions| && CodeExtensions[i] == ext;
    AnyEndsWithSpec(stem + ext, CodeExtensions);
    assert EndsWith(stem + ext, CodeExtensions[i]) by {
      assert (stem + ext)[|stem|..] == ext;
    }
  }

  /** The entries of `files` whose file is code (`code == true`) or not. */
  function Select(files: Dict<seq<string>>, code: bool): Dict<seq<string>> {
    if files == [] then []
    else
      var e := files[|files| - 1];
      Select(files[..|files| - 1], code) + (if ShouldAnalyzeFile(e.0) == code then [e] else [])
  }

  /** `code_files` and `other_files` split the keys of `files_code` between
      them, keeping every file's lines and the dictionary order. */
  lemma {:induction false} PartitionSpec(files: Dict<seq<string>>, f: string)
    requires DistinctKeys(files)
    ensures Lookup(Select(files, true), f) == if ShouldAnalyzeFile(f) then Lookup(files, f) else None
    ensures Lookup(Select(files, false), f) == if ShouldAnalyzeFile(f) then None else Lookup(files, f)
    ensures |Select(files, true)| + |Select(files, false)| == |files|
    ensures DistinctKeys(Select(files, true)) && DistinctKeys(Select(files, false))
  {
    if files != [] {
      var init, e := files[..|files| - 1], files[|files| - 1];
      assert init + [e] == files;
      DistinctAppend(init, e);
      PartitionSpec(init, f);
      PartitionSpec(init, e.0);
      LookupAppend(init, e, f);
      var c, o := Select(init, true), Select(init, false);
      if ShouldAnalyzeFile(e.0) {
        assert Select(files, true) == c + [e] && Select(files, false) == o;
        LookupAppend(c, e, f);
        DistinctAppend(c, e);
      } else {
        assert Select(files, true) == c && Select(files, false) == o + [e];
        LookupAppend(o, e, f);
        DistinctAppend(o, e);
      }
    }
  }

  const MaxCode := 20000

  /** Appended to code that was cut. */
  const TruncationMarker := "\n# ... c\U{00F3}digo truncado ..."

  /** The `code` of the request body `check_with_api` posts, or `None` when it
      returns before posting. */
  function Payload(codeLines: seq<string>): Option<string> {
    CodeField(Join(codeLines, "\n"))
  }

  /** The request's `code` for the joined lines `code`. */
  function CodeField(code: string): Option<string> {
    if Strip(code) == "" then None
    else if |code| > MaxCode then Some(code[..MaxCode] + TruncationMarker)
    else Some(code)
  }

  /** Nothing is sent for code that is all whitespace. */
  lemma CodeFieldNone(code: string)
    ensures CodeField(code).None? <==> forall i :: 0 <= i < |code| ==> IsSpace(code[i])
  {
    StripEmptyIff(code);
  }

  /** Otherwise the code is sent whole when it has at most 20000 characters,
      and cut to its first 20000 characters followed by the marker when it is
      longer. */
  lemma CodeFieldSome(code: string)
    requires CodeField(code).Some?
    ensures |code| <= MaxCode ==> CodeField(code).value == code
    ensures |code| > MaxCode ==>
      CodeField(code).value[..MaxCode] == code[..MaxCode] &&
      CodeField(code).value[MaxCode..] == TruncationMarker
    ensures |CodeField(code).value| <= MaxCode + |TruncationMarker|
  {
    if |code| > MaxCode {
      var v := code[..MaxCode] + TruncationMarker;
      assert v[..MaxCode] == code[..MaxCode];
      assert v[MaxCode..] == TruncationMarker;
    }
  }
}
