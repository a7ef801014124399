/** The source tree every analyser walks: directories (`type: 'tree'`) with
    ordered children, files (`type: 'blob'`) with their metadata, and nodes
    with any other tag, which every analyser skips. A path is never stored:
    it is derived while walking, and the root's own name is not part of it. */
module Tree {
  import opened Optional
  import opened PyStr
  import opened Assoc

  /** A file's metadata. A field missing from the document is represented by
      its zero value (0, false, an empty mapping or list). */
  datatype BlobData = BlobData(
    sizeInBytes: nat,
    noCommits: nat,
    isBinary: bool,
    lastChangeEpoch: int,
    authors: Dict<int>,      // `authors`: author -> ownership percentage
    historical: Dict<int>,   // `unionedAuthors.HISTORICAL`: author -> lines
    commits: seq<string>)

  datatype Node =
    | Tree(name: string, children: seq<Node>)
    | Blob(name: string, data: BlobData)
    | Other(name: string)

  /** One call of an analyser's blob branch: the derived path, the node's
      name and its metadata. */
  datatype Visit = Visit(path: string, name: string, data: BlobData)

  /** The path of a child: `f"{path}/{name}" if path else name`. */
  function ChildPath(path: string, name: string): (r: string)
    ensures path == "" ==> r == name
    ensures path != "" ==> r == path + "/" + name
  {
    if path == "" then name else path + "/" + name
  }

  /** The blob branch is taken once per file reached through directories
      only, in pre-order and child order. */
  function Walk(n: Node, path: string): seq<Visit> {
    match n
    case Blob(name, d) => [Visit(path, name, d)]
    case Tree(_, cs) => WalkChildren(cs, path)
    case Other(_) => []
  }

  function WalkChildren(cs: seq<Node>, path: string): seq<Visit> {
    if cs == [] then []
    else
      var last := cs[|cs| - 1];
      WalkChildren(cs[..|cs| - 1], path) + Walk(last, ChildPath(path, last.name))
  }

  /** One more child visited. */
  lemma WalkChildrenNext(cs: seq<Node>, path: string, i: nat, next: nat)
    requires i < |cs| && next == i + 1
    ensures WalkChildren(cs[..next], path) == WalkChildren(cs[..i], path) + Walk(cs[i], ChildPath(path, cs[i].name))
  {
    assert cs[..next][..i] == cs[..i];
  }

  /** `traverse_tree(self.data['simplifiedTree'])` if the document has a tree, else nothing. */
  function WalkRoot(root: Option<Node>): seq<Visit> {
    match root
    case None => []
    case Some(n) => Walk(n, "")
  }

  /** The number of file nodes reachable from `n` through directory nodes only. */
  function BlobCount(n: Node): nat {
    match n
    case Blob(_, _) => 1
    case Tree(_, cs) => ChildrenBlobCount(cs)
    case Other(_) => 0
  }

  function ChildrenBlobCount(cs: seq<Node>): nat {
    if cs == [] then 0 else ChildrenBlobCount(cs[..|cs| - 1]) + BlobCount(cs[|cs| - 1])
  }

  /** The walk has one visit per reachable file node, whatever the path:
      its length is the number of file nodes. */
  lemma {:induction false} WalkCount(n: Node, path: string)
    ensures |Walk(n, path)| == BlobCount(n)
    decreases n, 1
  {
    match n
    case Blob(_, _) =>
    case Other(_) =>
    case Tree(_, cs) => WalkChildrenCount(n, cs, path);
  }

  lemma {:induction false} WalkChildrenCount(parent: Node, cs: seq<Node>, path: string)
    requires parent.Tree? && cs <= parent.children
    ensures |WalkChildren(cs, path)| == ChildrenBlobCount(cs)
    decreases parent, 0, |cs|
  {
    if cs != [] {
      var last := cs[|cs| - 1];
      assert last in parent.children;
      WalkChildrenCount(parent, cs[..|cs| - 1], path);
      WalkCount(last, ChildPath(path, last.name));
    }
  }

  /** `os.path.splitext(p)[1]` (POSIX): the suffix from the last `.`, when that
      dot comes after the last `/` and is not part of the name's leading dots. */
  function Ext(p: string): (r: string)
    ensures r == "" || (r[0] == '.' && EndsWith(p, r) && '/' !in r && '.' !in r[1..])
  {
    var sepIndex := RFindChar(p, '/');
    var dotIndex := RFindChar(p, '.');
    if dotIndex > sepIndex && exists k :: sepIndex + 1 <= k < dotIndex && p[k] != '.'
    then
      var r := p[dotIndex..];
      assert forall i :: 0 <= i < |r| ==> r[i] == p[dotIndex + i];
      r
    else ""
  }

  /** `p[i]` starts the extension of `p`: it is the last `.`, no `/`
      follows it, and some character other than `.` comes before it in the
      last path component. */
  ghost predicate ExtStart(p: string, i: int) {
    && 0 <= i < |p| && p[i] == '.'
    && (forall j :: i < j < |p| ==> p[j] != '.' && p[j] != '/')
    && exists k :: 0 <= k < i && p[k] != '.' && p[k] != '/' && forall j :: k < j < i ==> p[j] != '/'
  }

  /** `splitext` for every path: the extension is non-empty exactly when
      some position starts one, and then it is the rest of the path from
      there; otherwise it is empty. */
  lemma ExtSpec(p: string)
    ensures Ext(p) != "" <==> exists i :: ExtStart(p, i)
    ensures forall i :: ExtStart(p, i) ==> Ext(p) == p[i..]
  {
    var sepIndex := RFindChar(p, '/');
    var dotIndex := RFindChar(p, '.');
    forall i | ExtStart(p, i)
      ensures i == dotIndex && dotIndex > sepIndex
      ensures exists k :: sepIndex + 1 <= k < dotIndex && p[k] != '.'
    {
      var k :| 0 <= k < i && p[k] != '.' && p[k] != '/' && forall j :: k < j < i ==> p[j] != '/';
      assert sepIndex < k;
    }
    if dotIndex > sepIndex && exists k :: sepIndex + 1 <= k < dotIndex && p[k] != '.' {
      var k :| sepIndex + 1 <= k < dotIndex && p[k] != '.';
      assert ExtStart(p, dotIndex);
    }
  }

  /** A leading dot does not start an extension: a name that is a dot and
      then dot-free text (`.gitignore`) has none, at the root or under any
      directory. */
  lemma ExtDotFile(dir: string, rest: string)
    requires '.' !in rest && '/' !in rest
    ensures Ext("." + rest) == ""
    ensures Ext(dir + "/." + rest) == ""
  {
    ExtSpec("." + rest);
    var q := dir + "/." + rest;
    assert q[|dir|] == '/' && q[|dir| + 1] == '.';
    assert forall j :: |dir| + 1 < j < |q| ==> q[j] == rest[j - |dir| - 2];
    ExtSpec(q);
  }

  /** Only the last suffix is the extension: a name with a non-dot
      character, then anything, then `.e` for dot-free `e` has extension
      `.e` (`app.test.ts` has `.ts`). */
  lemma ExtLastSuffix(stem: string, e: string)
    requires '/' !in stem && '.' !in e && '/' !in e
    requires exists k :: 0 <= k < |stem| && stem[k] != '.'
    ensures Ext(stem + "." + e) == "." + e
  {
    var p := stem + "." + e;
    var i := |stem|;
    var k :| 0 <= k < |stem| && stem[k] != '.';
    assert p[k] == stem[k];
    forall j | i < j < |p| ensures p[j] != '.' && p[j] != '/' {
      assert p[j] == e[j - i - 1];
    }
    forall j | k < j < i ensures p[j] != '/' {
      assert p[j] == stem[j];
    }
    assert ExtStart(p, i);
    ExtSpec(p);
    assert p[i..] == "." + e;
  }

  /** `s.rstrip(c)` */
  function RStripChar(s: string, c: char): (r: string)
    ensures |r| <= |s| && r == s[..|r|]
    ensures r == [] || r[|r| - 1] != c
  {
    if s != [] && s[|s| - 1] == c then RStripChar(s[..|s| - 1], c) else s
  }

  /** `os.path.dirname(p)` (POSIX): everything up to the last `/`, with the
      trailing slashes removed unless nothing but slashes is left. */
  function DirName(p: string): string {
    var head := p[..RFindChar(p, '/') + 1];
    if exists k :: 0 <= k < |head| && head[k] != '/' then RStripChar(head, '/') else head
  }

  /** A path without `/` (a file directly under the root) has no directory. */
  lemma DirNameTopLevel(p: string)
    requires '/' !in p
    ensures DirName(p) == ""
  {
    assert RFindChar(p, '/') == -1;
  }

  /** The last `c` of `s + t` is the last character of `s` when `t` has no `c`. */
  lemma {:induction false} RFindCharTail(s: string, t: string, c: char)
    requires s != [] && s[|s| - 1] == c && c !in t
    ensures RFindChar(s + t, c) == |s| - 1
  {
    if t == [] {
      assert s + t == s;
    } else {
      assert (s + t)[..|s + t| - 1] == s + t[..|t| - 1];
      assert (s + t)[|s + t| - 1] == t[|t| - 1];
      RFindCharTail(s, t[..|t| - 1], c);
    }
  }

  /** For a proper parent path and a child name without `/`, the directory of
      the child's path is the parent's path. */
  lemma DirNameChild(parent: string, name: string)
    requires parent != "" && parent[|parent| - 1] != '/'
    requires '/' !in name
    ensures DirName(ChildPath(parent, name)) == parent
  {
    var q := parent + "/";
    var p := q + name;
    assert ChildPath(parent, name) == p;
    RFindCharTail(q, name, '/');
    assert p[..|q|] == q;
    assert q[|parent| - 1] != '/';
    assert q[..|q| - 1] == parent;
    assert RStripChar(q, '/') == parent;
  }

  /** The extensions of the source's language table. */
  const LanguageExtensions: seq<string> :=
    [".ts", ".tsx", ".js", ".jsx", ".py", ".json", ".css", ".scss", ".html", ".md", ".yml", ".yaml", ".sql", ".sh"]

  /** The fixed extension -> language table of the source. */
  function LanguageOf(ext: string): Option<string> {
    if ext == ".ts" || ext == ".tsx" then Some("TypeScript")
    else if ext == ".js" || ext == ".jsx" then Some("JavaScript")
    else if ext == ".py" then Some("Python")
    else if ext == ".json" then Some("JSON")
    else if ext == ".css" then Some("CSS")
    else if ext == ".scss" then Some("SCSS")
    else if ext == ".html" then Some("HTML")
    else if ext == ".md" then Some("Markdown")
    else if ext == ".yml" || ext == ".yaml" then Some("YAML")
    else if ext == ".sql" then Some("SQL")
    else if ext == ".sh" then Some("Shell")
    else None
  }

  /** A visited file's lower-cased extension, `os.path.splitext(name)[-1].lower()`. */
  function FileExt(v: Visit): string {
    Lower(Ext(v.name))
  }

  /** A language is named for exactly the fourteen listed extensions, each
      a dot followed by lower-case letters; so a file has a language only
      when its name has an extension. */
  lemma LanguageTable(ext: string)
    ensures LanguageOf(ext).Some? <==> ext in LanguageExtensions
    ensures LanguageOf(ext).Some? ==> |ext| > 1 && ext[0] == '.' && forall i :: 1 <= i < |ext| ==> 'a' <= ext[i] <= 'z'
  {
  }

  /** The language of a visited file comes from a real extension of its name. */
  lemma LanguageOfFile(v: Visit)
    requires LanguageOf(FileExt(v)).Some?
    ensures exists i :: ExtStart(v.name, i)
  {
    LanguageTable(FileExt(v));
    ExtSpec(v.name);
  }

  /** Every JSON object in a blob's metadata has distinct keys. */
  predicate WellFormedBlob(d: BlobData) {
    DistinctKeys(d.authors) && DistinctKeys(d.historical)
  }

  predicate WellFormedVisits(w: seq<Visit>) {
    forall i :: 0 <= i < |w| ==> WellFormedBlob(w[i].data)
  }
}
