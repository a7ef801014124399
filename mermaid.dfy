/** `MermaidPrivate`: the string surgery that keeps a mermaid `journey`
    chart inside a Markdown body. The regex `'```mermaid\n(.*?)\n```'` with
    DOTALL is modelled by its two fences and the leftmost, shortest match. */
module Mermaid {
  import opened Optional
  import opened PyStr
  import opened Delimited

  /** The opening fence, with the newline that follows it. */
  const Open: string := "```mermaid\n"
  /** The closing fence, with the newline that precedes it. */
  const Close: string := "\n```"

  /** `journey(title)` */
  function Journey(title: string): string {
    "journey\ntitle " + title
  }

  /** `append2mermaid(mermaid, data)` */
  function Append2Mermaid(mermaid: string, data: string): string {
    mermaid + "\n" + data
  }

  /** `get_mermaid_code(title, body)` */
  function GetMermaidCode(title: string, body: string): (string, bool) {
    match Search(body, Open, Close)
    case None => (Journey(title), false)
    case Some((p, q)) => (body[p + |Open|..q], true)
  }

  /** The code of the first block with `True`, or a fresh `journey` header
      with `False` when the body holds no block. */
  lemma GetMermaidCodeSpec(title: string, body: string)
    ensures (forall p, q :: !Between(body, Open, Close, p, q)) ==> GetMermaidCode(title, body) == (Journey(title), false)
    ensures forall p, q :: Leftmost(body, Open, Close, p, q) ==>
      GetMermaidCode(title, body) == (body[p + |Open|..q], true)
  {
    SearchSpec(body, Open, Close);
  }

  /** The fenced block that `insert_code` writes around `code`. */
  function Fenced(code: string): string {
    Open + code + Close
  }

  /** `re.sub(pattern, rep, body)`: every match, left to right, with the
      search resumed after each replaced block. */
  function SubAll(body: string, rep: string): string
    decreases |body|
  {
    match Search(body, Open, Close)
    case None => body
    case Some((p, q)) => body[..p] + rep + SubAll(body[q + |Close|..], rep)
  }

  /** `insert_code(body, code, replace)` */
  function InsertCode(body: string, code: string, replace: bool): string {
    if replace then SubAll(body, Fenced(code)) else body + "\n" + Fenced(code)
  }

  /** `generate_journey(title, to_add, body)` */
  function GenerateJourney(title: string, toAdd: string, body: string): string {
    var (code, found) := GetMermaidCode(title, body);
    InsertCode(body, Append2Mermaid(code, toAdd), found)
  }

  /** With nothing to match, the replacing branch leaves the body alone. */
  lemma {:induction false} ReplaceWithoutBlock(body: string, code: string)
    requires forall p, q :: !Between(body, Open, Close, p, q)
    ensures InsertCode(body, code, true) == body
  {
    SearchSpec(body, Open, Close);
  }

  /** Appending a block to a body that holds no opening fence (not even one
      completed by the newline put before the new block), with code free of
      closing fences, is undone by `get_mermaid_code`: the body stays a
      prefix and the new block is the one found. */
  lemma {:induction false} AppendedBlockFound(title: string, body: string, code: string)
    requires !Contains(body + "\n", Open)
    requires !Contains(code, Close)
    ensures StartsWith(InsertCode(body, code, false), body)
    ensures Search(InsertCode(body, code, false), Open, Close) == Some((|body| + 1, |body| + 1 + |Open| + |code|))
    ensures GetMermaidCode(title, InsertCode(body, code, false)) == (code, true)
  {
    var r := InsertCode(body, code, false);
    var A := body + "\n" + Open;
    assert r == A + code + Close;
    assert r[..|body|] == body;
    NoOpenBefore(body, code);
    NoCloseBefore(A, code);
    FoundAt(r, |body| + 1, |A| + |code|);
    assert r[|A|..|A| + |code|] == code;
  }

  /** The search result, given where the two `find` calls land. */
  lemma FoundAt(text: string, p: int, q: int)
    requires p != -1 && Find(text, Open, 0) == p
    requires q != -1 && Find(text, Close, p + |Open|) == q
    ensures Search(text, Open, Close) == Some((p, q))
  {
  }

  /** The first opening fence of the appended text is the new one. */
  lemma NoOpenBefore(body: string, code: string)
    requires !Contains(body + "\n", Open)
    ensures Find(InsertCode(body, code, false), Open, 0) == |body| + 1
  {
    var r := InsertCode(body, code, false);
    var A := body + "\n";
    assert r == A + Open + (code + Close);
    SliceMiddle(A, Open, code + Close, |A|, |A| + |Open|);
    assert OccursAt(r, Open, |A|);
    forall i | 0 <= i < |A| ensures !OccursAt(r, Open, i) {
      if i + |Open| <= |A| {
        NoOpenInside(A, Open + (code + Close), i);
      } else {
        NoOpenAcross(A, Open + (code + Close), i);
      }
    }
  }

  /** An occurrence that lies inside a prefix free of opening fences is none. */
  lemma NoOpenInside(a: string, b: string, i: int)
    requires !Contains(a, Open)
    requires 0 <= i && i + |Open| <= |a|
    ensures !OccursAt(a + b, Open, i)
  {
    assert (a + b)[i..i + |Open|] == a[i..i + |Open|];
    assert !OccursAt(a, Open, i);
  }

  /** Nor is one that starts before a prefix's final newline and runs past
      it: the fence holds a newline only as its last character. */
  lemma NoOpenAcross(a: string, b: string, i: int)
    requires |a| > 0 && a[|a| - 1] == '\n'
    requires 0 <= i < |a| < i + |Open|
    ensures !OccursAt(a + b, Open, i)
  {
    var n := |a| - 1;
    if i + |Open| <= |a + b| {
      assert (a + b)[i..i + |Open|][n - i] == '\n';
      OpenNewlineLast(n - i);
    }
  }

  lemma OpenNewlineLast(k: int)
    requires 0 <= k < |Open| - 1
    ensures Open[k] != '\n'
  {
  }

  /** The first closing fence after the new block's code starts is its own. */
  lemma NoCloseBefore(a: string, code: string)
    requires !Contains(code, Close)
    ensures Find(a + code + Close, Close, |a|) == |a| + |code|
  {
    var r := a + code + Close;
    var Q := |a| + |code|;
    SliceMiddle(a + code, Close, [], Q, Q + |Close|);
    assert a + code + Close + [] == r;
    assert OccursAt(r, Close, Q);
    NoCloseInside(a, code);
  }

  /** Code free of closing fences, followed by a closing fence, shows its
      first closing fence right after the code. */
  lemma NoCloseInside(a: string, code: string)
    requires !Contains(code, Close)
    ensures forall j :: |a| <= j < |a| + |code| ==> !OccursAt(a + code + Close, Close, j)
  {
    var r := a + code + Close;
    var Q := |a| + |code|;
    forall j | |a| <= j < Q ensures !OccursAt(r, Close, j) {
      if j + |Close| <= Q {
        SliceMiddle(a, code, Close, j, j + |Close|);
        assert !OccursAt(code, Close, j - |a|);
      } else if j + |Close| <= |r| {
        assert r[Q] == '\n';
        assert r[j..j + |Close|][Q - j] == '\n';
        assert Close[Q - j] == '`';
      }
    }
  }

  /** On a body that holds no opening fence, `generate_journey` keeps the body
      and appends a new block whose code is a fresh `journey` header followed
      by `to_add`. */
  lemma {:induction false} GenerateJourneyFresh(title: string, toAdd: string, body: string, anyTitle: string)
    requires !Contains(body + "\n", Open)
    requires !Contains(Append2Mermaid(Journey(title), toAdd), Close)
    ensures StartsWith(GenerateJourney(title, toAdd, body), body)
    ensures GetMermaidCode(anyTitle, GenerateJourney(title, toAdd, body))
      == (Append2Mermaid(Journey(title), toAdd), true)
  {
    forall p, q ensures !Between(body, Open, Close, p, q) {
      if Between(body, Open, Close, p, q) {
        assert (body + "\n")[p..p + |Open|] == body[p..p + |Open|];
        assert OccursAt(body + "\n", Open, p);
      }
    }
    SearchSpec(body, Open, Close);
    AppendedBlockFound(anyTitle, body, Append2Mermaid(Journey(title), toAdd));
  }

  /** On a body whose first block is the only one, `generate_journey`
      changes nothing but that block's code, which becomes the old code, a
      newline and `to_add`. The replacement text is taken literally. */
  lemma {:induction false} GenerateJourneySingle(title: string, toAdd: string,
                                                 pre: string, prior: string, post: string)
    requires Leftmost(pre + Open + prior + Close + post, Open, Close, |pre|, |pre| + |Open| + |prior|)
    requires forall p, q :: !Between(post, Open, Close, p, q)
    ensures GenerateJourney(title, toAdd, pre + Open + prior + Close + post)
      == pre + Fenced(Append2Mermaid(prior, toAdd)) + post
  {
    SingleFound(title, pre, prior, post);
    SingleReplaced(pre, prior, post, Fenced(Append2Mermaid(prior, toAdd)));
  }

  /** The block found is the first one, and its code is `prior`. */
  lemma SingleFound(title: string, pre: string, prior: string, post: string)
    requires Leftmost(pre + Open + prior + Close + post, Open, Close, |pre|, |pre| + |Open| + |prior|)
    ensures Search(pre + Open + prior + Close + post, Open, Close) == Some((|pre|, |pre| + |Open| + |prior|))
    ensures GetMermaidCode(title, pre + Open + prior + Close + post) == (prior, true)
  {
    var body := pre + Open + prior + Close + post;
    var q := |pre| + |Open| + |prior|;
    SearchSpec(body, Open, Close);
    assert Search(body, Open, Close) == Some((|pre|, q));
    assert body == (pre + Open) + prior + (Close + post);
    SliceMiddle(pre + Open, prior, Close + post, |pre| + |Open|, q);
    assert prior[0..|prior|] == prior;
  }

  /** Replacing every block replaces that one and leaves `post`, which holds
      none, alone. */
  lemma SingleReplaced(pre: string, prior: string, post: string, rep: string)
    requires Search(pre + Open + prior + Close + post, Open, Close) == Some((|pre|, |pre| + |Open| + |prior|))
    requires forall p, q :: !Between(post, Open, Close, p, q)
    ensures SubAll(pre + Open + prior + Close + post, rep) == pre + rep + post
  {
    var body := pre + Open + prior + Close + post;
    var q := |pre| + |Open| + |prior|;
    ReplaceWithoutBlock(post, rep);
    assert SubAll(post, rep) == post;
    assert body[..|pre|] == pre;
    assert body[q + |Close|..] == post;
  }

  /** `section S`, then one line per step. */
  function StepLine(step: (string, string), who: string): string {
    step.0 + ": " + step.1 + ": " + who
  }

  /** The text `dict2section` builds after the steps seen so far. */
  function SectionText(section: string, steps: seq<(string, string)>, who: string): string {
    if steps == [] then "section " + section + "\n"
    else SectionText(section, steps[..|steps| - 1], who) + StepLine(steps[|steps| - 1], who) + "\n"
  }

  /** `dict2section(section, steps, who)`: the steps in insertion order. */
  method Dict2Section(section: string, steps: seq<(string, string)>, who: string)
    returns (sectionStr: string)
    ensures sectionStr == SectionText(section, steps, who)
  {
    sectionStr := "section " + section + "\n";
    var i := 0;
    while i < |steps|
      invariant 0 <= i <= |steps|
      invariant sectionStr == SectionText(section, steps[..i], who)
    {
      assert steps[..i + 1][..i] == steps[..i];
      sectionStr := sectionStr + StepLine(steps[i], who) + "\n";
      i := i + 1;
    }
    assert steps[..|steps|] == steps;
  }

  /** The lines of a section: its header and one line per step. */
  function SectionLines(section: string, steps: seq<(string, string)>, who: string): (r: seq<string>)
    ensures |r| == 1 + |steps|
    ensures r[0] == "section " + section
    ensures forall i :: 0 <= i < |steps| ==> r[i + 1] == StepLine(steps[i], who)
  {
    ["section " + section] + seq(|steps|, i requires 0 <= i < |steps| => StepLine(steps[i], who))
  }

  lemma SectionLinesSnoc(section: string, steps: seq<(string, string)>, who: string)
    requires steps != []
    ensures SectionLines(section, steps, who)
      == SectionLines(section, steps[..|steps| - 1], who) + [StepLine(steps[|steps| - 1], who)]
  {
  }

  lemma {:induction false} SectionTextJoin(section: string, steps: seq<(string, string)>, who: string)
    ensures SectionText(section, steps, who) == Join(SectionLines(section, steps, who), "\n") + "\n"
  {
    if steps != [] {
      var init := steps[..|steps| - 1];
      var line := StepLine(steps[|steps| - 1], who);
      var L0 := SectionLines(section, init, who);
      var J0 := Join(L0, "\n");
      SectionTextJoin(section, init, who);
      SectionLinesSnoc(section, steps, who);
      JoinLast(L0, line, "\n");
      assert SectionText(section, steps, who) == (J0 + "\n") + line + "\n";
      assert Join(SectionLines(section, steps, who), "\n") == J0 + "\n" + line;
    }
  }

  /** When no part holds a newline, the section is exactly 1 + |steps| lines,
      each ending in a newline: the header and the steps in order. */
  lemma SectionTextLines(section: string, steps: seq<(string, string)>, who: string)
    requires '\n' !in section && '\n' !in who
    requires forall i :: 0 <= i < |steps| ==> '\n' !in steps[i].0 && '\n' !in steps[i].1
    ensures Split(SectionText(section, steps, who), '\n') == SectionLines(section, steps, who) + [""]
  {
    var L := SectionLines(section, steps, who) + [""];
    SectionTextJoin(section, steps, who);
    JoinLast(SectionLines(section, steps, who), "", "\n");
    assert Join(L, "\n") == SectionText(section, steps, who);
    forall i | 0 <= i < |L| ensures '\n' !in L[i] {
      if 1 <= i <= |steps| {
        assert L[i] == steps[i - 1].0 + ": " + steps[i - 1].1 + ": " + who;
      }
    }
    SplitJoin(L, '\n');
  }
}
