/** `extract_message`: the JSON object an assistant reply carries between
    `[C:START]` and `[C:END]`, and the check in `review` that stops before
    decoding when nothing was extracted. */
module Reply {
  import opened Optional
  import opened PyStr
  import opened Delimited

  const Start: string := "[C:START]"
  const End: string := "[C:END]"

  /** The `^[^{]*` alternative of the cleaning regex: everything before the
      first `{`, or the whole text when it has none. */
  function DropHead(s: string): string {
    var f := FindChar(s, '{');
    if f == -1 then "" else s[f..]
  }

  /** The `[^}]*$` alternative: everything after the last `}`, or the whole
      text when it has none. */
  function DropTail(s: string): string {
    var l := RFindChar(s, '}');
    if l == -1 then "" else s[..l + 1]
  }

  /** `re.sub(r'^[^{]*|[^}]*$', '', s)`: both alternatives removed. A text
      the first alternative removes whole leaves nothing for the second. */
  function TrimBraces(s: string): string {
    DropTail(DropHead(s))
  }

  /** The text has a `}` somewhere after its first `{`. */
  predicate Braced(s: string) {
    FindChar(s, '{') != -1 && FindChar(s, '{') < RFindChar(s, '}')
  }

  /** The last `}` after the first `{` is the last `}` of the whole text. */
  lemma LastCloseAfter(s: string, f: int)
    requires 0 <= f < |s|
    ensures RFindChar(s[f..], '}') == if f <= RFindChar(s, '}') then RFindChar(s, '}') - f else -1
  {
    var l := RFindChar(s, '}');
    var h := s[f..];
    var r := RFindChar(h, '}');
    if r != -1 {
      assert s[f + r] == h[r];
    }
    if f <= l {
      assert h[l - f] == '}';
    }
  }

  /** The cleaned text runs from the first `{` to the last `}` when a `}`
      follows the first `{`, and is empty otherwise. */
  lemma TrimBracesSpec(s: string)
    ensures TrimBraces(s) == if Braced(s) then s[FindChar(s, '{')..RFindChar(s, '}') + 1] else ""
  {
    var f := FindChar(s, '{');
    if f == -1 {
      TrimWithoutOpen(s);
    } else if Braced(s) {
      TrimBracedSpan(s, f, RFindChar(s, '}'));
    } else {
      TrimWithoutLaterClose(s, f);
    }
  }

  lemma TrimWithoutOpen(s: string)
    requires FindChar(s, '{') == -1
    ensures TrimBraces(s) == ""
  {
    assert DropHead(s) == "";
    assert RFindChar("", '}') == -1;
  }

  lemma TrimWithoutLaterClose(s: string, f: int)
    requires f == FindChar(s, '{') && f != -1 && RFindChar(s, '}') <= f
    ensures TrimBraces(s) == ""
  {
    LastCloseAfter(s, f);
    var h := DropHead(s);
    assert h == s[f..];
    assert RFindChar(h, '}') == -1;
  }

  lemma TrimBracedSpan(s: string, f: int, l: int)
    requires f == FindChar(s, '{') && l == RFindChar(s, '}') && f != -1 && f < l
    ensures TrimBraces(s) == s[f..l + 1]
  {
    LastCloseAfter(s, f);
    var h := DropHead(s);
    assert h == s[f..];
    assert DropTail(h) == h[..l - f + 1];
    assert h[..l - f + 1] == s[f..l + 1];
  }

  /** The cleaned text is empty exactly when no `}` follows the first `{`. */
  lemma TrimBracesEmpty(s: string)
    ensures TrimBraces(s) == "" <==> !Braced(s)
  {
    TrimBracesSpec(s);
  }

  /** Otherwise the span it keeps opens with `{`, closes with `}` and sits
      in the input at the first `{`. */
  lemma BracedSpan(s: string, f: int, l: int)
    requires f == FindChar(s, '{') && l == RFindChar(s, '}') && f != -1 && f < l
    ensures var t := s[f..l + 1]; |t| >= 2 && t[0] == '{' && t[|t| - 1] == '}' && OccursAt(s, t, f)
  {
  }

  /** A text that already starts with `{` and ends with `}` comes back
      unchanged, and so does the empty text. */
  lemma TrimBracesKeepsBraced(s: string)
    requires s == "" || (|s| >= 2 && s[0] == '{' && s[|s| - 1] == '}')
    ensures TrimBraces(s) == s
  {
    TrimBracesSpec(s);
    if s != "" {
      assert FindChar(s, '{') == 0;
      assert RFindChar(s, '}') == |s| - 1;
      assert s[0..|s|] == s;
    }
  }

  /** The cleaned text is empty, or opens with `{` and closes with `}`. */
  lemma TrimmedShape(s: string)
    ensures var t := TrimBraces(s); t == "" || (|t| >= 2 && t[0] == '{' && t[|t| - 1] == '}')
  {
    TrimBracesSpec(s);
    if Braced(s) {
      BracedSpan(s, FindChar(s, '{'), RFindChar(s, '}'));
    }
  }

  /** Cleaning twice cleans no more than cleaning once. */
  lemma TrimBracesIdempotent(s: string)
    ensures TrimBraces(TrimBraces(s)) == TrimBraces(s)
  {
    TrimmedShape(s);
    TrimBracesKeepsBraced(TrimBraces(s));
  }

  /** `extract_message(text)` */
  function ExtractMessage(text: string): Option<string> {
    match Search(text, Start, End)
    case None => None
    case Some((p, q)) => Some(TrimBraces(Strip(text[p + |Start|..q])))
  }

  /** `None` exactly when no `[C:START]` is followed by a `[C:END]`;
      otherwise the cleaned text between the first start marker and the
      nearest end marker after it, which may span lines. */
  lemma ExtractMessageSpec(text: string)
    ensures ExtractMessage(text).None? <==> forall p, q :: !Between(text, Start, End, p, q)
    ensures forall p, q :: Leftmost(text, Start, End, p, q) ==>
      ExtractMessage(text) == Some(TrimBraces(Strip(text[p + |Start|..q])))
  {
    SearchSpec(text, Start, End);
    forall p, q | Leftmost(text, Start, End, p, q)
      ensures ExtractMessage(text) == Some(TrimBraces(Strip(text[p + |Start|..q])))
    {
      assert Search(text, Start, End) == Some((p, q));
    }
  }

  /** `review` carries on to decode the reply only when `extract_message`
      returned a non-empty string (`if not response: return`). */
  function ReviewProceeds(note: string): bool {
    match ExtractMessage(note)
    case None => false
    case Some(m) => m != ""
  }

  /** Without a marked span the review stops; with one, it goes on exactly
      when the span's stripped text has a `}` after its first `{`. */
  lemma ReviewProceedsSpec(note: string)
    ensures (forall p, q :: !Between(note, Start, End, p, q)) ==> !ReviewProceeds(note)
    ensures forall p, q :: Leftmost(note, Start, End, p, q) ==>
      (ReviewProceeds(note) <==> Braced(Strip(note[p + |Start|..q])))
  {
    ExtractMessageSpec(note);
    forall p, q | Leftmost(note, Start, End, p, q)
      ensures ReviewProceeds(note) <==> Braced(Strip(note[p + |Start|..q]))
    {
      TrimBracesEmpty(Strip(note[p + |Start|..q]));
    }
  }
}
