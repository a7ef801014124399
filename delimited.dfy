/** The search `re.search(OPEN + '(.*?)' + CLOSE, text, re.DOTALL)` performs
    for two literal delimiters: the leftmost opening delimiter, and after it
    the nearest closing delimiter. Both mermaid fences and the reply markers
    are found this way. */
module Delimited {
  import opened Optional
  import opened PyStr

  /** A match: `open` at `p`, the group from `p + |open|` up to `q`, `close`
      at `q`. DOTALL lets the group hold newlines. */
  predicate Between(text: string, open: string, close: string, p: int, q: int) {
    OccursAt(text, open, p) && p + |open| <= q && OccursAt(text, close, q)
  }

  /** The match the regex engine reports: the leftmost start, and for that
      start the shortest (lazy) group. */
  ghost predicate Leftmost(text: string, open: string, close: string, p: int, q: int) {
    Between(text, open, close, p, q) &&
    forall p', q' :: Between(text, open, close, p', q') ==> p < p' || (p == p' && q <= q')
  }

  /** The first opening delimiter, then the first closing delimiter after the
      group starts. A later opening delimiter cannot do better, since every
      closing delimiter after it is also after the first one. */
  function Search(text: string, open: string, close: string): (r: Option<(int, int)>)
    ensures r.Some? ==> Between(text, open, close, r.value.0, r.value.1)
  {
    var p := Find(text, open, 0);
    if p == -1 then None
    else
      var q := Find(text, close, p + |open|);
      if q == -1 then None else Some((p, q))
  }

  /** The search finds a match exactly when one exists, and then it finds the
      leftmost, shortest one. */
  lemma SearchSpec(text: string, open: string, close: string)
    ensures Search(text, open, close).None? <==> forall p, q :: !Between(text, open, close, p, q)
    ensures forall p, q :: Search(text, open, close) == Some((p, q)) <==> Leftmost(text, open, close, p, q)
  {
    var p0 := Find(text, open, 0);
    if p0 != -1 {
      var q0 := Find(text, close, p0 + |open|);
      forall p', q' | Between(text, open, close, p', q')
        ensures q0 != -1 && (p0 < p' || (p0 == p' && q0 <= q'))
      {
        assert p0 <= p';
        assert !(q' < q0 && p0 + |open| <= q');
      }
      if q0 != -1 {
        assert Leftmost(text, open, close, p0, q0);
        forall p, q | Leftmost(text, open, close, p, q) ensures p == p0 && q == q0 {
          assert Between(text, open, close, p0, q0);
        }
      }
    }
  }
}
