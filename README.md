# GuardIA core, modelled in Dafny

GuardIA is a set of tools that review code changes. This project models the
parts of them that compute something:

- **Contribution report** (`ContributionFormatter`). It reads a Git Truck
  export, which is a tree of directories and files. Each file carries its
  size, commit count, commit ids, last-change timestamp, binary flag,
  ownership percentages per author (`authors`) and historical line counts
  (`unionedAuthors.HISTORICAL`). The report is built in several parts:
  - global statistics (`_calculate_stats`);
  - one record per author (`_get_author_analysis`);
  - co-authorship counters and shared-file lists (`_get_collaboration_analysis`);
  - the totals of `generate_summary`;
  - the architecture patterns and technology stack (`_analyze_architecture`).
- **Diff checker** (`ia_diff_checker.py`):
  - splits a unified diff into the added, non-blank lines per file;
  - keeps only the code files of an extension whitelist;
  - prepares the code field it sends to a classifier.
- **Review publishers** (`publishers.py`):
  - the Markdown review report and pull-request comment;
  - the score history that an issue body keeps inside a Mermaid `journey`
    block. A later run finds that block, extends it and writes it back in place.
- **Review driver** (`script.py`):
  - `extract_message`, which takes the JSON object out of an assistant reply
    between `[C:START]` and `[C:END]`;
  - the check that stops the review when nothing was extracted.

`src/publishers.py` and `apps/code-diff-review/src/publishers.py` are
identical, and so are the two copies of `script.py`. One model serves both
copies of each file, and each row below cites one of them; a row's lines
are the same in the other copy.

The model is organised as follows.
- Python dictionaries and `Counter`s are association lists in insertion
  order (`Assoc`). Assignment keeps a present key in its place and appends a
  new key.
- `list.sort(key=…, reverse=True)` is a stable insertion sort (`Sorting`).
  Its full Python contract is proved: the result is in descending order, it
  is a permutation of the input, and it is stable. The result is also unique.
- Each recursive tree walk of the source is a recursive `method` on a class
  whose fields are the dictionaries that the walk updates. It is proved
  against a fold over the pre-order list of visited files (`Tree.Walk`).
- The properties are then proved about those folds:
  - counts and sums;
  - which keys appear;
  - ranking and stability;
  - symmetry of the co-authorship counts;
  - the pattern and technology tests in terms of the files' paths.
- Python string operations (`find`, `rfind`, `strip`, `split`, `join`,
  `lower`, `upper`, `title`, `replace`, slicing) are in `PyStr`.
- The regular expressions of the source are written out as searches whose
  results are characterised (`Delimited`, `DiffChecker.HeaderName`,
  `Reply.TrimBraces`).

## Model

| member | source | states |
|---|---|---|
| Assoc.Put | apps/ai-diff-checker/ia_diff_checker.py:28 | `d[k] = v`: `k` maps to `v` afterwards and every other key keeps its value |
| Assoc.PutShape | apps/ai-diff-checker/ia_diff_checker.py:28 | assigning to a present key keeps the key order; a new key is appended at the end |
| Assoc.Inc | apps/git-truck-api/utils/contribution_formatter.py:55 | `counter[k] += n`: the count of `k` grows by `n`, `k` becomes a key, other counts are unchanged |
| Assoc.TallyCount | apps/git-truck-api/utils/contribution_formatter.py:59-77 | counting keyed elements adds to each key exactly the number of elements with that key, and adds exactly those keys |
| Assoc.TallySum | apps/git-truck-api/utils/contribution_formatter.py:59-77 | counting keeps the keys distinct and adds one to the counter's total per keyed element |
| Assoc.SumInc | apps/git-truck-api/utils/contribution_formatter.py:451 | adding `n` to one entry of a counter adds `n` to `sum(values())` |
| Sorting.SortDescSpec | apps/git-truck-api/utils/contribution_formatter.py:114-116 | `sort(key, reverse=True)` gives non-increasing keys, a permutation of the input, and keeps input order among equal keys |
| Sorting.SortDescUnique | apps/git-truck-api/utils/contribution_formatter.py:114-116 | those three properties determine the sorted list uniquely |
| Sorting.SortDescPerm | apps/git-truck-api/utils/contribution_formatter.py:114-116 | sorting rearranges the elements and nothing else |
| Sorting.SortDescStable | apps/git-truck-api/utils/contribution_formatter.py:114-116 | for every key, the elements with that key keep their relative order |
| Sorting.SortDescSorted | apps/git-truck-api/utils/contribution_formatter.py:114-116 | the sorted list is in descending key order |
| Tree.WalkCount | apps/git-truck-api/utils/contribution_formatter.py:47-108 | the walk has one visit per file node, so its length is the number of file nodes of the tree |
| Tree.ExtSpec | apps/git-truck-api/utils/contribution_formatter.py:57 | `splitext(name)[-1]` is non-empty exactly when the name's last `.` follows the last `/` and a non-dot character of the last component; it is then the text from that dot, and otherwise empty |
| Tree.ExtDotFile | apps/git-truck-api/utils/contribution_formatter.py:57 | for every dot-free text `x`, a name `.x` (such as `.gitignore`) has no extension, at the root or under any directory |
| Tree.ExtLastSuffix | apps/git-truck-api/utils/contribution_formatter.py:57 | for every slash-free stem with a non-dot character and every dot-free `e`, the extension of `stem.e` is `.e`: only the last suffix counts |
| Tree.DirNameTopLevel | apps/git-truck-api/utils/contribution_formatter.py:75-77 | a file directly under the root has no parent directory, so it is not counted in `directories` |
| Tree.DirNameChild | apps/git-truck-api/utils/contribution_formatter.py:107 | `dirname` of the `parent/name` path the walk builds for a child is the parent's path |
| Tree.LanguageTable | apps/git-truck-api/utils/contribution_formatter.py:61-70 | `lang_map` names a language for exactly its fourteen extensions, each a dot and lower-case letters |
| Tree.LanguageOfFile | apps/git-truck-api/utils/contribution_formatter.py:57-71 | a file is counted in a language only when its name has a real extension |
| GlobalStats.StatsAggregator.VisitBlob | apps/git-truck-api/utils/contribution_formatter.py:48-103 | the blob branch moves the statistics to one `Step` of the fold |
| GlobalStats.StatsAggregator.Traverse | apps/git-truck-api/utils/contribution_formatter.py:47-108 | `traverse_tree` leaves the statistics folded over the walk's files, in order |
| GlobalStats.StatsAggregator.SortAll | apps/git-truck-api/utils/contribution_formatter.py:114-116 | the three sorts change the three lists and nothing else |
| GlobalStats.CalculateStats | apps/git-truck-api/utils/contribution_formatter.py:31-118 | `_calculate_stats` returns the statistics of the `simplifiedTree`, or the empty ones without it |
| GlobalStats.FoldAppend | apps/git-truck-api/utils/contribution_formatter.py:105-108 | walking one subtree after another is walking their concatenation |
| GlobalStats.FoldOneTotals | apps/git-truck-api/utils/contribution_formatter.py:49-55 | one file adds its size and commits, one binary count if binary, and its percentages per author |
| GlobalStats.FoldOneCounters | apps/git-truck-api/utils/contribution_formatter.py:57-77 | one file bumps its non-empty extension, its language if listed, and its non-empty parent directory |
| GlobalStats.FoldOneLists | apps/git-truck-api/utils/contribution_formatter.py:83-103 | one file appends a recency entry if its timestamp is non-zero, and always a size and a commits entry |
| GlobalStats.Totals | apps/git-truck-api/utils/contribution_formatter.py:49-81 | `total_files` is the number of file nodes; size, commits and binary count sum over them; binary ≤ files |
| GlobalStats.NoTree | apps/git-truck-api/utils/contribution_formatter.py:110-111 | without `simplifiedTree` every statistic stays zero or empty |
| GlobalStats.Directories | apps/git-truck-api/utils/contribution_formatter.py:75-77 | `directories[d]` is the number of files directly under `d`; the empty path is never a key |
| GlobalStats.Extensions | apps/git-truck-api/utils/contribution_formatter.py:58-72 | `file_types[e]` counts files with extension `e`; `languages[l]` counts files whose extension maps to `l` |
| GlobalStats.CounterSums | apps/git-truck-api/utils/contribution_formatter.py:59-72 | total language count ≤ total extension count ≤ `total_files` |
| GlobalStats.RecencyEntries | apps/git-truck-api/utils/contribution_formatter.py:84-90 | one `last_changes` entry per file with a non-zero timestamp, and none with timestamp 0 |
| GlobalStats.SizeEntries | apps/git-truck-api/utils/contribution_formatter.py:93-97 | one size entry per file, in walk order |
| GlobalStats.CommitEntries | apps/git-truck-api/utils/contribution_formatter.py:100-103 | one commits entry per file, in walk order |
| GlobalStats.ListsOf | apps/git-truck-api/utils/contribution_formatter.py:83-116 | each final list is the sorted list of its per-file entries |
| GlobalStats.LastChangesRanked | apps/git-truck-api/utils/contribution_formatter.py:114 | `last_changes` is newest first, stable, a permutation of the entries, each with a non-zero timestamp |
| GlobalStats.BiggestFilesRanked | apps/git-truck-api/utils/contribution_formatter.py:115 | `biggest_files` holds one entry per file, largest first, stable among equal sizes |
| GlobalStats.MostChangedRanked | apps/git-truck-api/utils/contribution_formatter.py:116 | `most_changed_files` holds one entry per file, most commits first, stable among equal counts |
| GlobalStats.AddPercentagesSpec | apps/git-truck-api/utils/contribution_formatter.py:54-55 | the author loop adds each listed author's percentage to its entry and enters exactly those authors |
| GlobalStats.AuthorPercentages | apps/git-truck-api/utils/contribution_formatter.py:54-55 | `authors[a]` is the sum of `a`'s percentages over all files; exactly the listed authors are keys, each once |
| Authors.AuthorAnalyzer.OwnershipLoop | apps/git-truck-api/utils/contribution_formatter.py:189-207 | the loop over `authors` applies the ownership update to every listed author's record |
| Authors.AuthorAnalyzer.OwnFile | apps/git-truck-api/utils/contribution_formatter.py:190-207 | one author's record: touched +1, percentage and size appended, owned or shared +1, recent entry when newer than the threshold |
| Authors.AuthorAnalyzer.HistoricalLoop | apps/git-truck-api/utils/contribution_formatter.py:210-220 | the loop over `HISTORICAL` adds the lines and a contribution entry for every author listed there |
| Authors.AuthorAnalyzer.AddFileLines | apps/git-truck-api/utils/contribution_formatter.py:212-220 | one author's record gets `lines` more and one biggest-contribution entry |
| Authors.AuthorAnalyzer.CommitLoop | apps/git-truck-api/utils/contribution_formatter.py:223-226 | every listed author's commit set gains the file's commit ids |
| Authors.AuthorAnalyzer.CollectCommits | apps/git-truck-api/utils/contribution_formatter.py:225-226 | the inner loop adds the file's commit ids to one record's set |
| Authors.AuthorAnalyzer.KindsLoop | apps/git-truck-api/utils/contribution_formatter.py:242-256 | the last loop over `authors` counts extension, language and directory and records most-changed files per author |
| Authors.AuthorAnalyzer.CountKinds | apps/git-truck-api/utils/contribution_formatter.py:243-256 | one author's record gets those counters and, when commits > 1, a most-changed entry |
| Authors.AuthorAnalyzer.VisitBlob | apps/git-truck-api/utils/contribution_formatter.py:182-256 | the blob branch is the four loops in source order |
| Authors.AuthorAnalyzer.Traverse | apps/git-truck-api/utils/contribution_formatter.py:181-261 | `analyze_authors` leaves the table folded over the walk's files |
| Authors.AuthorAnalyzer.SortAll | apps/git-truck-api/utils/contribution_formatter.py:267-271 | the post-walk loop sorts the three lists of every record and changes nothing else |
| Authors.SortLists | apps/git-truck-api/utils/contribution_formatter.py:269-271 | the three sorts of one record |
| Authors.SortRecordsLookup | apps/git-truck-api/utils/contribution_formatter.py:267-271 | after the sorting loop every author keeps its record, with its three lists sorted, and no author is added |
| Authors.AnalyzeAuthors | apps/git-truck-api/utils/contribution_formatter.py:160-279 | `_get_author_analysis` walks the tree, sorts, and ranks the authors as the specification function does |
| Authors.StepSpec | apps/git-truck-api/utils/contribution_formatter.py:182-256 | one file changes each author's record as the per-author step says, enters exactly the authors of its two mappings, and keeps keys distinct |
| Authors.TableSpec | apps/git-truck-api/utils/contribution_formatter.py:181-264 | the table has a record for exactly the mentioned authors, each equal to the per-author fold, under distinct keys |
| Authors.AuthorRecords | apps/git-truck-api/utils/contribution_formatter.py:263-271 | after sorting, each mentioned author, and no other, maps to its record with sorted lists |
| Authors.OwnershipCounts | apps/git-truck-api/utils/contribution_formatter.py:190-198 | `files_touched` = owned + shared = number of percentages recorded; owned counts the 100% entries |
| Authors.UntouchedIff | apps/git-truck-api/utils/contribution_formatter.py:188-190 | an author touches no file exactly when no `authors` mapping lists it |
| Authors.LineTotals | apps/git-truck-api/utils/contribution_formatter.py:211-220 | `total_lines` sums the author's HISTORICAL counts; `biggest_contributions` holds, per file whose HISTORICAL lists the author, the file's path, the author's lines, the size and the commits, in walk order |
| Authors.ContributionsMembers | apps/git-truck-api/utils/contribution_formatter.py:211-220 | an entry is a contribution exactly when some file lists the author in HISTORICAL with that data |
| Authors.CommitUnion | apps/git-truck-api/utils/contribution_formatter.py:223-226 | the commit set is the union of the commit lists of the files whose `authors` lists the author |
| Authors.AuthorCounters | apps/git-truck-api/utils/contribution_formatter.py:242-248 | the author's counters are the global counters restricted to the files that list the author |
| Authors.AuthorCounts | apps/git-truck-api/utils/contribution_formatter.py:242-248 | per-author extension, language and directory counts equal the file counts over that author's files |
| Authors.ActivityLists | apps/git-truck-api/utils/contribution_formatter.py:200-256 | before sorting, recent and most-changed lists hold one entry per qualifying listed file, in walk order |
| Authors.Thresholds | apps/git-truck-api/utils/contribution_formatter.py:200-256 | recent entries are newer than 1700000000; most-changed entries have more than one commit |
| Authors.RecentFilesRanked | apps/git-truck-api/utils/contribution_formatter.py:271 | `recent_files`: newest first, stable, a permutation of the qualifying entries |
| Authors.MostChangedRanked | apps/git-truck-api/utils/contribution_formatter.py:270 | `most_changed_files`: most commits first, stable, a permutation of the qualifying entries |
| Authors.BiggestRanked | apps/git-truck-api/utils/contribution_formatter.py:269 | `biggest_contributions`: one entry per file whose HISTORICAL lists the author, most lines first, stable |
| Authors.RankingSpec | apps/git-truck-api/utils/contribution_formatter.py:279 | the report order is by `total_lines` descending, table order among ties, every author once |
| Collaboration.BumpSpec | apps/git-truck-api/utils/contribution_formatter.py:361 | bumping `[a][b]` changes only row `a` and enters `a` |
| Collaboration.AddSharedSpec | apps/git-truck-api/utils/contribution_formatter.py:363-369 | appending under a pair key changes only that key's list |
| Collaboration.SortSharedLookup | apps/git-truck-api/utils/contribution_formatter.py:398-402 | after sorting, every pair key holds its own list sorted by size, largest first, and no key is added |
| Collaboration.CollaborationAnalyzer.AddPair | apps/git-truck-api/utils/contribution_formatter.py:361-369 | the inner loop body bumps both directions and appends the shared-file entry |
| Collaboration.CollaborationAnalyzer.VisitBlob | apps/git-truck-api/utils/contribution_formatter.py:355-369 | the blob branch pairs the file's authors when there is more than one |
| Collaboration.CollaborationAnalyzer.PairAll | apps/git-truck-api/utils/contribution_formatter.py:359-369 | the outer loop applies every pair `(authors[i], authors[j])`, `i < j`, in loop order |
| Collaboration.CollaborationAnalyzer.PairWithLater | apps/git-truck-api/utils/contribution_formatter.py:360-369 | the inner loop pairs `authors[i]` with each later author |
| Collaboration.CollaborationAnalyzer.Traverse | apps/git-truck-api/utils/contribution_formatter.py:354-374 | `analyze_collaboration` leaves the state folded over the walk's files |
| Collaboration.CollaborationAnalyzer.ListPairs | apps/git-truck-api/utils/contribution_formatter.py:383-387 | the loop collects `(a1, a2, count)` for `a1 < a2`, in table order |
| Collaboration.CollaborationAnalyzer.SortSharedFiles | apps/git-truck-api/utils/contribution_formatter.py:398-402 | every shared-file list is sorted by size; the counters are unchanged |
| Collaboration.AnalyzeCollaboration | apps/git-truck-api/utils/contribution_formatter.py:348-402 | `_get_collaboration_analysis` computes the counters, the ranked pairs and the sorted shared files of the specification |
| Collaboration.FilePairsCount | apps/git-truck-api/utils/contribution_formatter.py:358-360 | the nested loop meets every two different authors of a file exactly once, in one order |
| Collaboration.VisitSpec | apps/git-truck-api/utils/contribution_formatter.py:356-362 | one file adds one to `[x][y]` exactly when `x ≠ y` both own it and it has more than one author |
| Collaboration.DataSpec | apps/git-truck-api/utils/contribution_formatter.py:351-377 | `collaboration_data[x][y]` is the number of files co-authored by `x` and `y`; `y` is a key of row `x` exactly when that is positive |
| Collaboration.PairCountSymmetric | apps/git-truck-api/utils/contribution_formatter.py:361-362 | the co-authored file count is symmetric |
| Collaboration.CountsSymmetric | apps/git-truck-api/utils/contribution_formatter.py:361-362 | `[a][b] == [b][a]` == number of files co-authored by `a` and `b` |
| Collaboration.ShownSpec | apps/git-truck-api/utils/contribution_formatter.py:379 | the section is shown exactly when some file has more than one author |
| Collaboration.PairKeyInjective | apps/git-truck-api/utils/contribution_formatter.py:363 | for names without `&`, `"a & b"` is the key of the pair `(a, b)` only |
| Collaboration.SharedTotalPair | apps/git-truck-api/utils/contribution_formatter.py:363-369 | for names without `&`, the lists under `"a & b"` and `"b & a"` together hold one entry per co-authored file |
| Collaboration.FilePairsPrecedes | apps/git-truck-api/utils/contribution_formatter.py:358-359 | the nested loops meet `(a, b)` once when `a` comes before `b` among the file's authors, and never otherwise |
| Collaboration.SharedListSpec | apps/git-truck-api/utils/contribution_formatter.py:363-369 | for names without `&`, before sorting, `shared_files["a & b"]` holds exactly one entry per multi-author file listing `a` before `b`: its path, both ownerships, its size and commits, in walk order |
| Collaboration.SharedFilesSpec | apps/git-truck-api/utils/contribution_formatter.py:363-402 | for names without `&`, the final lists of a pair hold one entry per co-authored file; the list under `"a & b"` is the entries of the files listing `a` before `b`, sorted by size, largest first and stable |
| Collaboration.PairListCount | apps/git-truck-api/utils/contribution_formatter.py:383-387 | the pair list holds `(a1, a2, c)` once when `a1 < a2` and `[a1][a2] == c > 0`, and nothing else |
| Collaboration.PairsRanked | apps/git-truck-api/utils/contribution_formatter.py:383-389 | the ranked pairs are every ordered pair with its co-authored count, largest count first, stable |
| Architecture.DetectPatterns | apps/git-truck-api/utils/contribution_formatter.py:494-512 | a pattern is reported exactly when some directory key contains its needle, in the source's test order |
| Architecture.TestPattern | apps/git-truck-api/utils/contribution_formatter.py:495-512 | one pattern test appends exactly when the pattern fires |
| Architecture.DetectTech | apps/git-truck-api/utils/contribution_formatter.py:520-532 | a technology is reported exactly when its test fires, in test order |
| Architecture.TestTech | apps/git-truck-api/utils/contribution_formatter.py:523-532 | one technology test appends exactly when it fires |
| Architecture.AnalyzeArchitecture | apps/git-truck-api/utils/contribution_formatter.py:486-539 | `_analyze_architecture` reports exactly the firing patterns and technologies, each in test order |
| Architecture.AnyContainsSpec | apps/git-truck-api/utils/contribution_formatter.py:495 | `any(n in d for d in dirs)` holds exactly when some `d` contains `n` |
| Architecture.DirectoryKeys | apps/git-truck-api/utils/contribution_formatter.py:75-77 | the directory keys are the non-empty parent paths of the files |
| Architecture.ParentIsKey | apps/git-truck-api/utils/contribution_formatter.py:75-77 | a file's non-empty parent path is a directory key |
| Architecture.PatternsOfFiles | apps/git-truck-api/utils/contribution_formatter.py:492-512 | a pattern fires exactly when some file's parent path contains its needle; the file's own name never counts |
| Architecture.LowerKeysOfFiles | apps/git-truck-api/utils/contribution_formatter.py:521-530 | some lower-cased key contains `n` exactly when some file's lower-cased parent path does |
| Architecture.TechOfDirectories | apps/git-truck-api/utils/contribution_formatter.py:523-532 | a technology fires exactly when a lower-cased key contains its needle, or for TypeScript when `.ts` was counted |
| Architecture.TechOfFiles | apps/git-truck-api/utils/contribution_formatter.py:521-532 | the same in terms of the files: a lower-cased parent path contains the needle, or some file has extension `.ts` |
| Architecture.TypeScriptByExtension | apps/git-truck-api/utils/contribution_formatter.py:531 | `'.ts' in file_types` exactly when some file's lower-cased extension is `.ts` |
| Architecture.MicroservicesNeedSubdirectory | apps/git-truck-api/utils/contribution_formatter.py:507 | a file directly in `apps` does not trigger the `apps/` test; one a level further down does |
| Summary.KeySetSize | apps/git-truck-api/utils/contribution_formatter.py:421 | a dict with distinct keys has as many keys as entries |
| Summary.UniqueAuthors | apps/git-truck-api/utils/contribution_formatter.py:421 | `len(stats['authors'])` is the number of distinct authors listed in the files |
| Summary.AddPercentagesSum | apps/git-truck-api/utils/contribution_formatter.py:54-55 | one file's author loop adds the sum of its percentages to the counter's total |
| Summary.TotalLines | apps/git-truck-api/utils/contribution_formatter.py:451 | `sum(stats['authors'].values())` is the sum of every file's ownership entries |
| Summary.GenerateSummary | apps/git-truck-api/utils/contribution_formatter.py:409-484 | the project name upper-cased, the totals and author counts, and the architecture result, each in terms of the walked files |
| DiffChecker.ExtractAddedLinesByFile | apps/ai-diff-checker/ia_diff_checker.py:20-43 | the loop over the lines computes the section-based specification |
| DiffChecker.ScanLine | apps/ai-diff-checker/ia_diff_checker.py:26-38 | the loop body is one step of the line scanner |
| DiffChecker.HeaderNameSpec | apps/ai-diff-checker/ia_diff_checker.py:30-32 | the header regex matches exactly when some split fits; the name is the non-empty text after the last fitting ` b/` |
| DiffChecker.LastSep | apps/ai-diff-checker/ia_diff_checker.py:30 | finds the last ` b/` in a range, or reports that there is none |
| DiffChecker.ExtractAddedSpec | apps/ai-diff-checker/ia_diff_checker.py:20-43 | the result collects, per section with added lines, those lines under the section's file name |
| DiffChecker.FilesCodeSpec | apps/ai-diff-checker/ia_diff_checker.py:20-43 | a file is a key exactly when a section of it has a non-blank added line; it maps to the lines of its last such section; names are distinct |
| DiffChecker.CollectKeys | apps/ai-diff-checker/ia_diff_checker.py:27-28 | a file is stored exactly when one of its sections has a non-blank added line |
| DiffChecker.CollectDistinct | apps/ai-diff-checker/ia_diff_checker.py:27-28 | every file name is stored once |
| DiffChecker.CollectLast | apps/ai-diff-checker/ia_diff_checker.py:27-28 | a later section of the same file replaces the earlier lines |
| DiffChecker.FeedHeader | apps/ai-diff-checker/ia_diff_checker.py:26-33 | a matching header flushes the pending lines and opens a new section |
| DiffChecker.FeedBrokenHeader | apps/ai-diff-checker/ia_diff_checker.py:26-31 | a `diff --git` line that does not match flushes but keeps collecting under the old name |
| DiffChecker.FeedBody | apps/ai-diff-checker/ia_diff_checker.py:35-38 | a body line adds its text after `+` when it is an added, non-blank line |
| DiffChecker.SectionsSpec | apps/ai-diff-checker/ia_diff_checker.py:25-33 | every section starts at a header naming its file, no body line is a header, one section per header |
| DiffChecker.PreambleDropped | apps/ai-diff-checker/ia_diff_checker.py:22-38 | lines before the first header, `+` lines included, are never stored |
| DiffChecker.NoHeaderNoSections | apps/ai-diff-checker/ia_diff_checker.py:22-43 | a diff with no header stores nothing |
| DiffChecker.AnyEndsWithSpec | apps/ai-diff-checker/ia_diff_checker.py:45-47 | `should_analyze_file` holds exactly when the path ends with one of the listed extensions |
| DiffChecker.CodeSuffix | apps/ai-diff-checker/ia_diff_checker.py:44-47 | any path ending in one of the listed extensions is code, whatever precedes the suffix |
| DiffChecker.PartitionSpec | apps/ai-diff-checker/ia_diff_checker.py:105-106 | `code_files` and `other_files` split the files between them, keeping lines and order |
| DiffChecker.CodeFieldNone | apps/ai-diff-checker/ia_diff_checker.py:50-53 | nothing is sent exactly when the joined code is all whitespace |
| DiffChecker.CodeFieldSome | apps/ai-diff-checker/ia_diff_checker.py:55-57 | code up to 20000 characters is sent as is; longer code is cut to 20000 and marked |
| Delimited.Search | src/publishers.py:26 | a found match has the opening delimiter and, after it, the closing one |
| Delimited.SearchSpec | src/script.py:9-10 | a lazy `open(.*?)close` search with DOTALL finds a match exactly when one exists, and then the leftmost, shortest one |
| PyStr.Find | src/publishers.py:26 | `s.find(p, start)` is the first occurrence at or after `start`, or -1 when there is none |
| PyStr.StripEmptyIff | apps/ai-diff-checker/ia_diff_checker.py:37 | `s.strip()` is empty exactly when `s` is all whitespace |
| PyStr.SplitJoin | apps/ai-diff-checker/ia_diff_checker.py:25 | splitting a join of separator-free pieces gives the pieces back |
| PyStr.JoinSplit | apps/ai-diff-checker/ia_diff_checker.py:25 | joining the pieces of a split gives the text back |
| PyStr.LowerSpec | apps/git-truck-api/utils/contribution_formatter.py:57 | `lower()` leaves no upper-case letter, leaves a text without one unchanged, and is idempotent |
| PyStr.UpperSpec | apps/git-truck-api/utils/contribution_formatter.py:414 | `upper()` leaves no lower-case letter, leaves a text without one unchanged, and is idempotent |
| PyStr.TitleFrom | src/publishers.py:95 | `title()` at every position: a letter after a non-letter is upper-cased, a letter after a letter lower-cased, a non-letter kept |
| PyStr.ReplaceCharSpec | src/publishers.py:95 | after `replace('_', ' ')` no `_` is left, a text without `_` is unchanged, and the replacement is undone when the text had no space |
| PyStr.TakeSpec | src/publishers.py:235 | `sha[:8]` is a prefix of `sha` of at most 8 characters, all of `sha` exactly when it is that short, and idempotent |
| Mermaid.GetMermaidCodeSpec | apps/code-diff-review/src/publishers.py:25-29 | the code of the first block with `True`, or a fresh `journey` header with `False` when there is no block |
| Mermaid.ReplaceWithoutBlock | src/publishers.py:19-21 | with no block to match, the replacing branch leaves the body alone |
| Mermaid.AppendedBlockFound | src/publishers.py:22-23 | an appended block keeps the body as prefix and is the block the next search finds |
| Mermaid.GenerateJourneyFresh | apps/code-diff-review/src/publishers.py:11-14 | a body without a chart gains one, after the body, whose code is a fresh journey header plus the new section |
| Mermaid.GenerateJourneySingle | src/publishers.py:11-14 | a body with one chart gets that chart extended by the new section, the rest unchanged |
| Mermaid.Dict2Section | src/publishers.py:31-35 | `dict2section` is the section header and one `step: value: who` line per step, in insertion order |
| Mermaid.SectionTextLines | src/publishers.py:31-35 | when no part holds a newline, the section splits into exactly its header and its step lines |
| Reports.GenerateBaseReport | src/publishers.py:68-98 | `generate_base_report` is the fixed header lines followed by one row per principle |
| Reports.BaseLinesShape | src/publishers.py:75-96 | 16 fixed lines, then one row per `codeSOLID` entry, in insertion order |
| Reports.PrincipleRowsIndex | src/publishers.py:94-96 | row `i` is the row of the `i`-th principle |
| Reports.PrincipleNameSpec | src/publishers.py:95 | the shown name keeps the length, has no `_`, a space where `_` or a space was, and keeps other non-letters |
| Reports.GeneratePrReport | apps/code-diff-review/src/publishers.py:226-247 | the PR comment is the header, the base report and the footer, joined by newlines |
| Reports.PrReportShape | src/publishers.py:233-245 | 3 header lines with `sha[:8]` and the branch, the base report, 3 footer lines: `22 + |codeSOLID|` lines |
| Reports.GenerateIssue | apps/code-diff-review/src/publishers.py:177-187 | `generate_issue` adds one `sha` section with the scores, attributed to the user, to the body's chart |
| Reports.IssueChartGrows | src/publishers.py:177-187 | a later run extends the body's one chart by the new section and leaves the rest of the body alone |
| Reply.TrimBracesSpec | apps/code-diff-review/src/script.py:13 | the cleaning regex keeps the text from the first `{` to the last `}` when a `}` follows the first `{`, else nothing |
| Reply.TrimBracesEmpty | src/script.py:13 | the cleaned text is empty exactly when no `}` follows the first `{` |
| Reply.TrimmedShape | src/script.py:13 | the cleaned text is empty or opens with `{` and closes with `}` |
| Reply.TrimBracesKeepsBraced | src/script.py:13 | text that already opens with `{` and closes with `}` comes back unchanged |
| Reply.TrimBracesIdempotent | src/script.py:13 | cleaning twice is cleaning once |
| Reply.ExtractMessageSpec | src/script.py:8-15 | `None` exactly when no `[C:START]` is followed by `[C:END]`; otherwise the cleaned, stripped text of the leftmost, shortest span |
| Reply.ReviewProceedsSpec | apps/code-diff-review/src/script.py:45-48 | the review stops without a marked span; with one it goes on exactly when the stripped span has a `}` after its first `{` |

## Left out

- Reading the JSON file, `argparse`, `main` and `save_summary` are left out: they are file and process I/O. Missing JSON fields become the default values the source's `.get` calls use.
- The rendered Markdown of the contribution report is left out. That covers:
  - the f-string layout;
  - `_format_size` and other floating-point formatting;
  - the `:,` thousands separators;
  - the `most_common(n)` and `[:5]` truncations.
  The model stops at the structures those strings are printed from.
- Percentages are whole numbers. The source may carry floats, and the division-based percentages it prints are not modelled.
- `datetime.fromtimestamp(...).strftime` dates and `size_kb` are left out. A ranked entry keeps only its path and its sort key.
- `_get_project_structure` is left out. Nothing in `generate_summary` uses it.
- `total_files_all` in `_get_author_analysis` is left out. It is always 0 and is never used.
- The architecture and technology labels are represented as constructors (`Pattern`, `Tech`), not as their display strings.
- `lower()`, `upper()` and `title()` treat ASCII letters only. Other characters are kept as they are.
- Collaboration.PairKeyInjective: holds only for names without `&`, because names containing `" & "` can make two pairs share one `shared_files` key (`"x & y"` with `"z"`, and `"x"` with `"y & z"`). The source does not guard against that.
- Collaboration.SharedTotalPair: stated only for names without `&`, for the same reason.
- Collaboration.SharedListSpec: stated only for names without `&`, for the same reason.
- Collaboration.SharedFilesSpec: stated only for names without `&`, for the same reason.
- DiffChecker.HeaderNameSpec: stated for lines without a newline, which is every line `split('\n')` yields.
- Mermaid.InsertCode: the replacement text is inserted literally. `re.sub` would interpret backslash escapes in the chart code, and the model does not reproduce them.
- Mermaid.GenerateJourneySingle: stated for a body holding one chart, where `re.sub` replaces that one block. With several blocks, the model replaces every block, as `re.sub` does, but no lemma is stated about that case.
- Reports.GeneratePrReport: the text is stated as the newline join of its lines. The lemmas describe the line list.
- `GitIssuePublisher.generate_report` (src/publishers.py:149-175) is not part of this model. It is the older comment format that `GitIssuePublisher.publish` posts next to the chart update, and only `publish` uses it.
- `GitIssuePublisher.publish` and `get_thread`, `GitPRPublisher.publish`, and the publisher constructors are left out. They call the GitHub API.
- `get_diff`, the `cururo` subprocess, the JSON decoding of the reply, and the publishing step of `review` are left out: they are process and network calls.
- In `ia_diff_checker.py`, `get_diff_lines`, the HTTP request of `check_with_api`, the printing of `analyze_commit` and its floating-point verdict are left out. The model covers the code field that is sent and the partition of the files.
