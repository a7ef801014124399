/** The Python `str` operations the modelled code relies on. A Python `str`
    is a sequence of code points, and so is a Dafny `string`; case mapping
    is given for ASCII letters only. */
module PyStr {

  /** `s.startswith(p)` */
  predicate StartsWith(s: string, p: string) {
    |p| <= |s| && s[..|p|] == p
  }

  /** `s.endswith(p)` */
  predicate EndsWith(s: string, p: string) {
    |p| <= |s| && s[|s| - |p|..] == p
  }

  /** `p` occurs in `s` at index `i`. */
  predicate OccursAt(s: string, p: string, i: int) {
    0 <= i && i + |p| <= |s| && s[i..i + |p|] == p
  }

  /** `p in s` */
  predicate Contains(s: string, p: string) {
    exists i :: 0 <= i <= |s| - |p| && OccursAt(s, p, i)
  }

  /** `s.find(p, start)`: the first index at or after `start` where `p` occurs, or -1. */
  function Find(s: string, p: string, start: nat): (r: int)
    ensures r == -1 || (start <= r && OccursAt(s, p, r))
    ensures r == -1 ==> forall i :: start <= i ==> !OccursAt(s, p, i)
    ensures r != -1 ==> forall i :: start <= i < r ==> !OccursAt(s, p, i)
    decreases |s| - start
  {
    if start + |p| > |s| then -1
    else if s[start..start + |p|] == p then start
    else Find(s, p, start + 1)
  }

  /** `s.find(c)` for a one-character needle. */
  function FindChar(s: string, c: char): (r: int)
    ensures -1 <= r < |s|
    ensures r >= 0 ==> s[r] == c
    ensures forall i :: 0 <= i < |s| && (r == -1 || i < r) ==> s[i] != c
  {
    if |s| == 0 then -1
    else if s[0] == c then 0
    else var k := FindChar(s[1..], c); if k == -1 then -1 else k + 1
  }

  /** `s.rfind(c)` for a one-character needle. */
  function RFindChar(s: string, c: char): (r: int)
    ensures -1 <= r < |s|
    ensures r >= 0 ==> s[r] == c
    ensures forall i :: r < i < |s| ==> s[i] != c
  {
    if |s| == 0 then -1
    else if s[|s| - 1] == c then |s| - 1
    else RFindChar(s[..|s| - 1], c)
  }

  /** The characters `str.isspace()` accepts, which are the ones `str.strip()` removes. */
  predicate IsSpace(c: char) {
    var k := c as int;
    k == 0x20 || 0x09 <= k <= 0x0D || 0x1C <= k <= 0x1F || k == 0x85 || k == 0xA0 ||
    k == 0x1680 || 0x2000 <= k <= 0x200A || k == 0x2028 || k == 0x2029 ||
    k == 0x202F || k == 0x205F || k == 0x3000
  }

  /** `s.lstrip()` */
  function LStrip(s: string): (r: string)
    ensures |r| <= |s| && r == s[|s| - |r|..]
    ensures r != [] ==> !IsSpace(r[0])
    ensures forall i :: 0 <= i < |s| - |r| ==> IsSpace(s[i])
  {
    if s != [] && IsSpace(s[0]) then
      var r := LStrip(s[1..]);
      assert forall i :: 0 < i < |s| ==> s[1..][i - 1] == s[i];
      r
    else s
  }

  /** `s.rstrip()` */
  function RStrip(s: string): (r: string)
    ensures |r| <= |s| && r == s[..|r|]
    ensures r != [] ==> !IsSpace(r[|r| - 1])
    ensures forall i :: |r| <= i < |s| ==> IsSpace(s[i])
  {
    if s != [] && IsSpace(s[|s| - 1]) then RStrip(s[..|s| - 1]) else s
  }

  /** `s.strip()` */
  function Strip(s: string): string {
    RStrip(LStrip(s))
  }

  /** `s.strip()` is empty (falsy) exactly when `s` is all whitespace. */
  lemma StripEmptyIff(s: string)
    ensures Strip(s) == "" <==> forall i :: 0 <= i < |s| ==> IsSpace(s[i])
  {
    var l := LStrip(s);
    if Strip(s) == "" {
      forall i | 0 <= i < |s| ensures IsSpace(s[i]) {
        if i >= |s| - |l| {
          assert s[i] == l[i - (|s| - |l|)];
        }
      }
    } else {
      assert !IsSpace(Strip(s)[0]);
      assert Strip(s)[0] == l[0] == s[|s| - |l|];
    }
  }

  /** `s.split(sep)` for a one-character separator: never empty, and no piece holds `sep`. */
  function Split(s: string, sep: char): (r: seq<string>)
    ensures |r| >= 1
    ensures forall i :: 0 <= i < |r| ==> sep !in r[i]
  {
    if |s| == 0 then [""]
    else
      var rest := Split(s[1..], sep);
      if s[0] == sep then [""] + rest else [[s[0]] + rest[0]] + rest[1..]
  }

  /** `sep.join(parts)` */
  function Join(parts: seq<string>, sep: string): string {
    if |parts| == 0 then ""
    else if |parts| == 1 then parts[0]
    else parts[0] + sep + Join(parts[1..], sep)
  }

  lemma {:induction false} SplitFree(s: string, sep: char)
    requires sep !in s
    ensures Split(s, sep) == [s]
  {
    if |s| > 0 {
      SplitFree(s[1..], sep);
      assert [s[0]] + s[1..] == s;
    }
  }

  lemma {:induction false} SplitCons(p: string, sep: char, t: string)
    requires sep !in p
    ensures Split(p + [sep] + t, sep) == [p] + Split(t, sep)
  {
    if |p| == 0 {
      assert p + [sep] + t == [sep] + t;
      assert ([sep] + t)[1..] == t;
    } else {
      SplitCons(p[1..], sep, t);
      assert (p + [sep] + t)[1..] == p[1..] + [sep] + t;
      assert [p[0]] + p[1..] == p;
    }
  }

  /** Splitting a `sep`-join of `sep`-free pieces gives the pieces back. */
  lemma {:induction false} SplitJoin(parts: seq<string>, sep: char)
    requires |parts| >= 1
    requires forall i :: 0 <= i < |parts| ==> sep !in parts[i]
    ensures Split(Join(parts, [sep]), sep) == parts
  {
    if |parts| == 1 {
      SplitFree(parts[0], sep);
    } else {
      SplitJoin(parts[1..], sep);
      SplitCons(parts[0], sep, Join(parts[1..], [sep]));
      assert [parts[0]] + parts[1..] == parts;
    }
  }

  /** Joining the pieces of a split gives the string back. */
  lemma {:induction false} JoinSplit(s: string, sep: char)
    ensures Join(Split(s, sep), [sep]) == s
  {
    if |s| > 0 {
      JoinSplit(s[1..], sep);
      var rest := Split(s[1..], sep);
      if s[0] == sep {
        assert Join([""] + rest, [sep]) == "" + [sep] + Join(rest, [sep]);
      } else {
        var r := [[s[0]] + rest[0]] + rest[1..];
        if |rest| == 1 {
          assert Join(r, [sep]) == [s[0]] + rest[0];
        } else {
          assert Join(rest, [sep]) == rest[0] + [sep] + Join(rest[1..], [sep]);
          assert r[1..] == rest[1..];
          assert Join(r, [sep]) == [s[0]] + rest[0] + [sep] + Join(rest[1..], [sep]);
        }
        assert [s[0]] + s[1..] == s;
      }
    }
  }

  /** `c.lower()` for ASCII letters; every other character is kept. */
  function LowerChar(c: char): char {
    if 'A' <= c <= 'Z' then (c as int + 32) as char else c
  }

  /** `c.upper()` for ASCII letters; every other character is kept. */
  function UpperChar(c: char): char {
    if 'a' <= c <= 'z' then (c as int - 32) as char else c
  }

  predicate IsAsciiLetter(c: char) {
    'A' <= c <= 'Z' || 'a' <= c <= 'z'
  }

  /** `s.lower()`, ASCII letters only. */
  function Lower(s: string): (r: string)
    ensures |r| == |s|
    ensures forall i :: 0 <= i < |s| ==> r[i] == LowerChar(s[i])
  {
    seq(|s|, i requires 0 <= i < |s| => LowerChar(s[i]))
  }

  /** `s.upper()`, ASCII letters only. */
  function Upper(s: string): (r: string)
    ensures |r| == |s|
    ensures forall i :: 0 <= i < |s| ==> r[i] == UpperChar(s[i])
  {
    seq(|s|, i requires 0 <= i < |s| => UpperChar(s[i]))
  }

  /** `s.title()` on ASCII: a letter is upper-cased when the character before
      it is not a letter and lower-cased otherwise. */
  function Title(s: string): (r: string)
    ensures |r| == |s|
  {
    TitleFrom(s, false)
  }

  function TitleFrom(s: string, afterLetter: bool): (r: string)
    ensures |r| == |s|
    ensures s != [] && IsAsciiLetter(s[0]) ==> r[0] == (if afterLetter then LowerChar(s[0]) else UpperChar(s[0]))
    ensures s != [] && !IsAsciiLetter(s[0]) ==> r[0] == s[0]
    ensures forall i :: 0 < i < |s| ==>
      r[i] == if !IsAsciiLetter(s[i]) then s[i]
              else if IsAsciiLetter(s[i - 1]) then LowerChar(s[i])
              else UpperChar(s[i])
  {
    if s == [] then []
    else
      var c := if !IsAsciiLetter(s[0]) then s[0] else if afterLetter then LowerChar(s[0]) else UpperChar(s[0]);
      var rest := TitleFrom(s[1..], IsAsciiLetter(s[0]));
      assert forall i :: 0 < i < |s| ==> ([c] + rest)[i] == rest[i - 1] && s[1..][i - 1] == s[i];
      assert forall i {:trigger s[i]} :: 1 < i < |s| ==>
        s[1..][i - 2] == s[i - 1] &&
        rest[i - 1] == (if !IsAsciiLetter(s[i]) then s[i] else if IsAsciiLetter(s[i - 1]) then LowerChar(s[i]) else UpperChar(s[i]));
      [c] + rest
  }

  /** `s.replace(a, b)` for one-character `a` and `b`. */
  function ReplaceChar(s: string, a: char, b: char): (r: string)
    ensures |r| == |s|
    ensures forall i :: 0 <= i < |s| ==> r[i] == (if s[i] == a then b else s[i])
  {
    seq(|s|, i requires 0 <= i < |s| => if s[i] == a then b else s[i])
  }

  /** Lower-casing leaves no upper-case ASCII letter, changes nothing else
      of a text that has none, and doing it twice is doing it once. */
  lemma LowerSpec(s: string)
    ensures forall i :: 0 <= i < |s| ==> !('A' <= Lower(s)[i] <= 'Z')
    ensures Lower(s) == s <==> forall i :: 0 <= i < |s| ==> !('A' <= s[i] <= 'Z')
    ensures Lower(Lower(s)) == Lower(s)
  {
    if Lower(s) == s {
      forall i | 0 <= i < |s| ensures !('A' <= s[i] <= 'Z') {
        assert s[i] == Lower(s)[i];
      }
    }
  }

  /** Upper-casing leaves no lower-case ASCII letter, changes nothing else
      of a text that has none, and doing it twice is doing it once. */
  lemma UpperSpec(s: string)
    ensures forall i :: 0 <= i < |s| ==> !('a' <= Upper(s)[i] <= 'z')
    ensures Upper(s) == s <==> forall i :: 0 <= i < |s| ==> !('a' <= s[i] <= 'z')
    ensures Upper(Upper(s)) == Upper(s)
  {
    if Upper(s) == s {
      forall i | 0 <= i < |s| ensures !('a' <= s[i] <= 'z') {
        assert s[i] == Upper(s)[i];
      }
    }
  }

  /** After replacing `a` by a different `b` no `a` is left; a text without
      `a` comes back unchanged; when `b` did not occur, replacing `b` by `a`
      undoes the replacement. */
  lemma ReplaceCharSpec(s: string, a: char, b: char)
    ensures a != b ==> a !in ReplaceChar(s, a, b)
    ensures a !in s ==> ReplaceChar(s, a, b) == s
    ensures b !in s ==> ReplaceChar(ReplaceChar(s, a, b), b, a) == s
  {
    var r := ReplaceChar(s, a, b);
    if a !in s {
      forall i | 0 <= i < |s| ensures r[i] == s[i] {
        assert s[i] in s;
      }
    }
    if b !in s {
      forall i | 0 <= i < |s| ensures ReplaceChar(r, b, a)[i] == s[i] {
        assert s[i] in s;
      }
    }
  }

  /** `s[:n]` is a prefix of `s` no longer than `n`; it is all of `s`
      exactly when `n` reaches the length, and cutting twice at `n` is
      cutting once. */
  lemma TakeSpec(s: string, n: nat)
    ensures Take(s, n) <= s && |Take(s, n)| <= n
    ensures Take(s, n) == s <==> n >= |s|
    ensures Take(Take(s, n), n) == Take(s, n)
  {
  }

  /** `s[:n]` for a non-negative `n` (Python clamps the bound to the length). */
  function Take(s: string, n: nat): (r: string)
    ensures |r| == if n <= |s| then n else |s|
    ensures r == s[..|r|]
  {
    if n <= |s| then s[..n] else s
  }

  /** Python's `a < b` on `str`: lexicographic by code point. */
  predicate StrLess(a: string, b: string)
    decreases |a|
  {
    |b| > 0 && (|a| == 0 || a[0] < b[0] || (a[0] == b[0] && StrLess(a[1..], b[1..])))
  }

  lemma {:induction false} StrLessIrreflexive(a: string)
    ensures !StrLess(a, a)
  {
    if |a| > 0 {
      StrLessIrreflexive(a[1..]);
    }
  }

  lemma {:induction false} StrLessAsymmetric(a: string, b: string)
    ensures !(StrLess(a, b) && StrLess(b, a))
    decreases |a|
  {
    if |a| > 0 && |b| > 0 && a[0] == b[0] {
      StrLessAsymmetric(a[1..], b[1..]);
    }
  }

  lemma {:induction false} StrLessTotal(a: string, b: string)
    ensures a == b || StrLess(a, b) || StrLess(b, a)
    decreases |a|
  {
    if |a| > 0 && |b| > 0 && a[0] == b[0] {
      StrLessTotal(a[1..], b[1..]);
      if a[1..] == b[1..] {
        assert a == [a[0]] + a[1..] && b == [b[0]] + b[1..];
      }
    }
  }

  /** Joining one more piece adds the separator and the piece at the end. */
  lemma {:induction false} JoinLast(parts: seq<string>, x: string, sep: string)
    requires |parts| >= 1
    ensures Join(parts + [x], sep) == Join(parts, sep) + sep + x
  {
    if |parts| > 1 {
      JoinLast(parts[1..], x, sep);
      assert (parts + [x])[1..] == parts[1..] + [x];
    }
  }

  /** Title-casing changes letters only: any other character occurs in the
      result exactly when it occurs in the input. */
  lemma {:induction false} TitleFromKeeps(s: string, afterLetter: bool, c: char)
    requires !IsAsciiLetter(c)
    ensures c in TitleFrom(s, afterLetter) <==> c in s
  {
    if s != [] {
      TitleFromKeeps(s[1..], IsAsciiLetter(s[0]), c);
      var r := TitleFrom(s, afterLetter);
      assert r == [r[0]] + TitleFrom(s[1..], IsAsciiLetter(s[0]));
      assert s == [s[0]] + s[1..];
      if IsAsciiLetter(s[0]) {
        assert IsAsciiLetter(r[0]);
      }
    }
  }

  /** A slice that lies inside the middle piece of a concatenation. */
  lemma SliceMiddle(a: string, b: string, c: string, i: int, j: int)
    requires |a| <= i <= j <= |a| + |b|
    ensures (a + b + c)[i..j] == b[i - |a|..j - |a|]
  {
  }
}
