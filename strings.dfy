/** String operations with the semantics of the JavaScript built-ins the
    publishing tool relies on: `indexOf`, `includes`, `split`/`join` with a
    non-empty separator, `trim`, ASCII `toLowerCase`, `startsWith`/`endsWith`,
    and decimal rendering of a natural number. */
module Strings {

  /** The characters `String.prototype.trim` removes (WhiteSpace and LineTerminator). */
  predicate IsSpace(c: char) {
    c == ' ' || c == '\t' || c == '\n' || c == '\r' || c == '\U{000B}' || c == '\U{000C}'
    || c == '\U{00A0}' || c == '\U{FEFF}' || c == '\U{1680}' || ('\U{2000}' <= c <= '\U{200A}')
    || c == '\U{2028}' || c == '\U{2029}' || c == '\U{202F}' || c == '\U{205F}' || c == '\U{3000}'
  }

  /** `pat` occurs in `s` starting at index `i`. */
  predicate OccursAt(s: string, pat: string, i: int) {
    0 <= i && i + |pat| <= |s| && s[i..i + |pat|] == pat
  }

  /** `s.includes(pat)` */
  predicate Contains(s: string, pat: string) {
    exists i | 0 <= i <= |s| - |pat| :: OccursAt(s, pat, i)
  }

  /** `s.indexOf(pat, from)`: the first occurrence at or after `from`, or -1. */
  function IndexOfFrom(s: string, pat: string, from: nat): (r: int)
    requires from <= |s|
    ensures r == -1 || (from <= r && OccursAt(s, pat, r))
    ensures forall j :: from <= j && (r == -1 || j < r) ==> !OccursAt(s, pat, j)
    decreases |s| - from
  {
    if from + |pat| > |s| then -1
    else if s[from..from + |pat|] == pat then from
    else IndexOfFrom(s, pat, from + 1)
  }

  /** `s.indexOf(pat)` */
  function IndexOf(s: string, pat: string): (r: int)
    ensures r == -1 <==> !Contains(s, pat)
    ensures r != -1 ==> OccursAt(s, pat, r) && forall j :: 0 <= j < r ==> !OccursAt(s, pat, j)
  {
    IndexOfFrom(s, pat, 0)
  }

  function StartsWith(s: string, prefix: string): bool {
    |prefix| <= |s| && s[..|prefix|] == prefix
  }

  function EndsWith(s: string, suffix: string): bool {
    |suffix| <= |s| && s[|s| - |suffix|..] == suffix
  }

  /** `s.split(sep)` for a non-empty separator: the pieces between successive
      leftmost, non-overlapping occurrences of `sep`. */
  function Split(s: string, sep: string): (parts: seq<string>)
    requires sep != []
    ensures |parts| >= 1
    decreases |s|
  {
    var i := IndexOf(s, sep);
    if i < 0 then [s] else [s[..i]] + Split(s[i + |sep|..], sep)
  }

  /** `parts.join(sep)` */
  function Join(parts: seq<string>, sep: string): string
  {
    if |parts| == 0 then ""
    else if |parts| == 1 then parts[0]
    else parts[0] + sep + Join(parts[1..], sep)
  }

  /** A piece that can stand before `sep` without the separator being found
      earlier: `sep` does not occur in it and its last character is not part of `sep`. */
  predicate Clean(p: string, sep: string) {
    !Contains(p, sep) && (p == [] || p[|p| - 1] !in sep)
  }

  lemma CleanSingle(p: string, c: char)
    requires c !in p
    ensures Clean(p, [c])
  {
    forall i | 0 <= i <= |p| - 1
      ensures !OccursAt(p, [c], i)
    {
      assert p[i..i + 1] == [p[i]];
    }
  }

  /** A piece holding none of the separator's characters is clean. */
  lemma CleanNoChar(p: string, sep: string)
    requires sep != []
    requires forall c :: c in sep ==> c !in p
    ensures Clean(p, sep)
  {
    assert sep[0] in sep;
    forall i | 0 <= i <= |p| - |sep|
      ensures !OccursAt(p, sep, i)
    {
      assert p[i..i + |sep|][0] == p[i];
    }
  }

  /** The first occurrence of `sep` in `a + sep + b` is the one right after a clean `a`. */
  lemma FirstOccurrence(a: string, sep: string, b: string)
    requires sep != []
    requires Clean(a, sep)
    ensures IndexOf(a + sep + b, sep) == |a|
  {
    var s := a + sep + b;
    assert s[|a|..|a| + |sep|] == sep;
    assert OccursAt(s, sep, |a|);
    forall j | 0 <= j < |a|
      ensures !OccursAt(s, sep, j)
    {
      if j + |sep| <= |a| {
        assert s[j..j + |sep|] == a[j..j + |sep|];
        assert !OccursAt(a, sep, j);
      } else {
        var k := |a| - 1 - j;
        assert s[j..j + |sep|][k] == a[|a| - 1];
        assert sep[k] in sep;
      }
    }
  }

  lemma SplitNone(s: string, sep: string)
    requires sep != []
    requires !Contains(s, sep)
    ensures Split(s, sep) == [s]
  {
  }

  /** A one-character pattern occurs exactly when the character does. */
  lemma ContainsChar(s: string, c: char)
    ensures Contains(s, [c]) <==> c in s
  {
    if c in s {
      var i :| 0 <= i < |s| && s[i] == c;
      assert s[i..i + 1] == [c];
      assert OccursAt(s, [c], i);
    } else {
      CleanSingle(s, c);
    }
  }

  /** The last piece of a split holds no separator: `split(sep).pop()`. */
  lemma {:induction false} SplitLast(s: string, sep: string)
    requires sep != []
    ensures !Contains(Split(s, sep)[|Split(s, sep)| - 1], sep)
    decreases |s|
  {
    var i := IndexOf(s, sep);
    if i >= 0 {
      var rest := s[i + |sep|..];
      var tail := Split(rest, sep);
      SplitLast(rest, sep);
      assert Split(s, sep) == [s[..i]] + tail;
      assert Split(s, sep)[|Split(s, sep)| - 1] == tail[|tail| - 1];
    } else {
      assert Split(s, sep) == [s];
    }
  }

  /** Whatever comes before the last one-character separator, the last piece
      is the text after it. */
  lemma {:induction false} SplitLastOf(a: string, c: char, b: string)
    requires c !in b
    ensures var parts := Split(a + [c] + b, [c]); parts[|parts| - 1] == b
    decreases |a|
  {
    var s := a + [c] + b;
    var i := IndexOf(s, [c]);
    assert 0 <= i <= |a| by {
      assert s[|a|..|a| + 1] == [c];
      assert OccursAt(s, [c], |a|);
    }
    var rest := s[i + 1..];
    assert Split(s, [c]) == [s[..i]] + Split(rest, [c]);
    if i == |a| {
      assert rest == b;
      ContainsChar(b, c);
    } else {
      assert rest == a[i + 1..] + [c] + b;
      SplitLastOf(a[i + 1..], c, b);
    }
  }

  /** Splitting `a + sep + b` for a clean `a` yields `a` followed by the pieces of `b`. */
  lemma SplitCons(a: string, sep: string, b: string)
    requires sep != []
    requires Clean(a, sep)
    ensures Split(a + sep + b, sep) == [a] + Split(b, sep)
  {
    var s := a + sep + b;
    FirstOccurrence(a, sep, b);
    assert s[..|a|] == a;
    assert s[|a| + |sep|..] == b;
  }

  /** Joining the pieces of a split gives the original string back. */
  lemma {:induction false} JoinSplit(s: string, sep: string)
    requires sep != []
    ensures Join(Split(s, sep), sep) == s
    decreases |s|
  {
    var i := IndexOf(s, sep);
    if i >= 0 {
      var rest := s[i + |sep|..];
      var tail := Split(rest, sep);
      assert Split(s, sep) == [s[..i]] + tail;
      JoinSplit(rest, sep);
      JoinCons(s[..i], tail, sep);
      assert s[i..i + |sep|] == sep;
      assert s == s[..i] + sep + rest;
    }
  }

  lemma JoinCons(x: string, tail: seq<string>, sep: string)
    requires |tail| >= 1
    ensures Join([x] + tail, sep) == x + sep + Join(tail, sep)
  {
    assert ([x] + tail)[1..] == tail;
  }

  /** Splitting a join of clean pieces gives the pieces back. */
  lemma {:induction false} SplitJoin(parts: seq<string>, sep: string)
    requires sep != [] && |parts| >= 1
    requires forall k :: 0 <= k < |parts| - 1 ==> Clean(parts[k], sep)
    requires !Contains(parts[|parts| - 1], sep)
    ensures Split(Join(parts, sep), sep) == parts
  {
    if |parts| == 1 {
      SplitNone(parts[0], sep);
    } else {
      SplitJoin(parts[1..], sep);
      SplitCons(parts[0], sep, Join(parts[1..], sep));
    }
  }

  /** `s.trimStart()` */
  function TrimStart(s: string): (r: string)
    ensures r == [] || !IsSpace(r[0])
    ensures |r| <= |s| && r == s[|s| - |r|..]
  {
    if s != [] && IsSpace(s[0]) then TrimStart(s[1..]) else s
  }

  /** `s.trimEnd()` */
  function TrimEnd(s: string): (r: string)
    ensures r == [] || !IsSpace(r[|r| - 1])
    ensures |r| <= |s| && r == s[..|r|]
  {
    if s != [] && IsSpace(s[|s| - 1]) then TrimEnd(s[..|s| - 1]) else s
  }

  /** No white space at either edge. */
  predicate Trimmed(s: string) {
    s == [] || (!IsSpace(s[0]) && !IsSpace(s[|s| - 1]))
  }

  /** `s.trim()` */
  function Trim(s: string): (r: string)
    ensures Trimmed(r)
  {
    TrimEnd(TrimStart(s))
  }

  /** `s.trim()` is the slice of `s` left once the white space on either side
      of it is cut off. */
  lemma TrimSlice(s: string)
    ensures exists i, j :: 0 <= i <= j <= |s| && Trim(s) == s[i..j] && AllSpace(s[..i]) && AllSpace(s[j..])
  {
    var t := TrimStart(s);
    var r := TrimEnd(t);
    var i := |s| - |t|;
    TrimStartDrops(s);
    TrimEndDrops(t);
    assert r == s[i..i + |r|] && s[i + |r|..] == t[|r|..];
  }

  /** What `trimStart` cuts off is white space. */
  lemma {:induction false} TrimStartDrops(s: string)
    ensures AllSpace(s[..|s| - |TrimStart(s)|])
    decreases |s|
  {
    if s != [] && IsSpace(s[0]) {
      TrimStartDrops(s[1..]);
      assert s[..|s| - |TrimStart(s)|] == [s[0]] + s[1..][..|s| - 1 - |TrimStart(s[1..])|];
    }
  }

  /** What `trimEnd` cuts off is white space. */
  lemma {:induction false} TrimEndDrops(s: string)
    ensures AllSpace(s[|TrimEnd(s)|..])
    decreases |s|
  {
    if s != [] && IsSpace(s[|s| - 1]) {
      TrimEndDrops(s[..|s| - 1]);
      assert s[|TrimEnd(s)|..] == s[..|s| - 1][|TrimEnd(s[..|s| - 1])|..] + [s[|s| - 1]];
    }
  }

  predicate AllSpace(w: string) {
    forall k :: 0 <= k < |w| ==> IsSpace(w[k])
  }

  lemma {:induction false} TrimStartSpaces(w: string, s: string)
    requires AllSpace(w)
    ensures TrimStart(w + s) == TrimStart(s)
    decreases |w|
  {
    if w != [] {
      assert (w + s)[1..] == w[1..] + s;
      TrimStartSpaces(w[1..], s);
    } else {
      assert w + s == s;
    }
  }

  /** A string with no white space at either edge is its own trim. */
  lemma TrimFixed(s: string)
    requires Trimmed(s)
    ensures Trim(s) == s
  {
  }

  /** Trimming white space plus a string with non-blank edges gives that string. */
  lemma TrimAfterSpaces(w: string, s: string)
    requires AllSpace(w)
    requires Trimmed(s)
    ensures Trim(w + s) == s
  {
    TrimStartSpaces(w, s);
  }

  /** Trimming is idempotent. */
  lemma TrimIdempotent(s: string)
    ensures Trim(Trim(s)) == Trim(s)
  {
    TrimFixed(Trim(s));
  }

  function LowerChar(c: char): char {
    if 'A' <= c <= 'Z' then (c as int + 32) as char else c
  }

  function UpperChar(c: char): char {
    if 'a' <= c <= 'z' then (c as int - 32) as char else c
  }

  /** `s.toLowerCase()` restricted to the ASCII letters. */
  function ToLower(s: string): (r: string)
    ensures |r| == |s| && forall i :: 0 <= i < |s| ==> r[i] == LowerChar(s[i])
  {
    seq(|s|, i requires 0 <= i < |s| => LowerChar(s[i]))
  }

  /** `s.replace(/c/g, d)` for single characters. */
  function ReplaceChar(s: string, c: char, d: char): (r: string)
    ensures |r| == |s|
    ensures forall i :: 0 <= i < |s| ==> r[i] == (if s[i] == c then d else s[i])
  {
    seq(|s|, i requires 0 <= i < |s| => if s[i] == c then d else s[i])
  }

  /** `s.replace(/c/g, '')` */
  function RemoveChar(s: string, c: char): (r: string)
    ensures c !in r
    ensures forall d :: d in r <==> d in s && d != c
  {
    if s == [] then [] else (if s[0] == c then [] else [s[0]]) + RemoveChar(s[1..], c)
  }

  lemma RemoveCharAbsent(s: string, c: char)
    requires c !in s
    ensures RemoveChar(s, c) == s
  {
  }

  /** `s.replace(pat, v)` with a string pattern: only the first occurrence is
      replaced (the `$` patterns of the replacement are not interpreted). */
  function ReplaceFirst(s: string, pat: string, v: string): (r: string)
    decreases |s|
  {
    if |s| < |pat| then s
    else if s[..|pat|] == pat then v + s[|pat|..]
    else [s[0]] + ReplaceFirst(s[1..], pat, v)
  }

  /** Replacing a placeholder whose first character does not occur before it
      changes exactly that occurrence. */
  lemma {:induction false} ReplaceFirstAt(a: string, pat: string, b: string, v: string)
    requires pat != [] && pat[0] !in a
    ensures ReplaceFirst(a + pat + b, pat, v) == a + v + b
    decreases |a|
  {
    var s := a + pat + b;
    if a == [] {
      assert s == pat + b;
      assert s[..|pat|] == pat && s[|pat|..] == b;
    } else {
      assert s[..|pat|][0] == a[0];
      assert s[1..] == a[1..] + pat + b;
      ReplaceFirstAt(a[1..], pat, b, v);
      assert a + v + b == [a[0]] + (a[1..] + v + b);
    }
  }

  /** Absence of `sep` in a concatenation whose seam cannot be part of an occurrence. */
  lemma NoOccConcat(x: string, y: string, sep: string)
    requires sep != []
    requires !Contains(x, sep) && !Contains(y, sep)
    requires (x != [] && x[|x| - 1] !in sep) || (y != [] && y[0] !in sep)
    ensures !Contains(x + y, sep)
  {
    var s := x + y;
    forall j | 0 <= j <= |s| - |sep|
      ensures !OccursAt(s, sep, j)
    {
      if j + |sep| <= |x| {
        assert s[j..j + |sep|] == x[j..j + |sep|];
        assert !OccursAt(x, sep, j);
      } else if j >= |x| {
        assert s[j..j + |sep|] == y[j - |x|..j - |x| + |sep|];
        assert !OccursAt(y, sep, j - |x|);
      } else if x != [] && x[|x| - 1] !in sep {
        assert s[j..j + |sep|][|x| - 1 - j] == x[|x| - 1];
        assert sep[|x| - 1 - j] in sep;
      } else {
        assert s[j..j + |sep|][|x| - j] == y[0];
        assert sep[|x| - j] in sep;
      }
    }
  }

  /** Being a substring is transitive. */
  lemma ContainsTrans(s: string, x: string, p: string)
    requires Contains(s, x) && Contains(x, p)
    ensures Contains(s, p)
  {
    var i :| 0 <= i <= |s| - |x| && OccursAt(s, x, i);
    var j :| 0 <= j <= |x| - |p| && OccursAt(x, p, j);
    assert x == s[i..i + |x|];
    var u, w := s[i + j..i + j + |p|], x[j..j + |p|];
    assert forall k :: 0 <= k < |p| ==> u[k] == w[k];
    assert OccursAt(s, p, i + j);
  }

  /** A pattern absent from a string is absent from each of its substrings. */
  lemma NoOccInInfix(s: string, x: string, p: string)
    requires Contains(s, x) && !Contains(s, p)
    ensures !Contains(x, p)
  {
    var i :| 0 <= i <= |s| - |x| && OccursAt(s, x, i);
    forall j | 0 <= j <= |x| - |p|
      ensures !OccursAt(x, p, j)
    {
      assert x == s[i..i + |x|];
      var u, w := s[i + j..i + j + |p|], x[j..j + |p|];
    assert forall k :: 0 <= k < |p| ==> u[k] == w[k];
      assert x[j..j + |p|] == s[i + j..i + j + |p|];
      assert !OccursAt(s, p, i + j);
    }
  }

  /** Every character of a substring occurs in the string. */
  lemma CharsOfInfix(s: string, x: string)
    requires Contains(s, x)
    ensures forall c :: c in x ==> c in s
  {
    var i :| 0 <= i <= |s| - |x| && OccursAt(s, x, i);
    forall c | c in x ensures c in s {
      var k :| 0 <= k < |x| && x[k] == c;
      assert s[i..i + |x|][k] == s[i + k];
    }
  }

  lemma ContainsSelf(s: string)
    ensures Contains(s, s)
  {
    assert OccursAt(s, s, 0);
  }

  /** Every piece of a split is a substring of the input. */
  lemma {:induction false} SplitSegmentsInfix(s: string, sep: string)
    requires sep != []
    ensures forall k :: 0 <= k < |Split(s, sep)| ==> Contains(s, Split(s, sep)[k])
    decreases |s|
  {
    var i := IndexOf(s, sep);
    var parts := Split(s, sep);
    if i < 0 {
      ContainsSelf(s);
    } else {
      var rest := s[i + |sep|..];
      var tail := Split(rest, sep);
      SplitSegmentsInfix(rest, sep);
      assert parts == [s[..i]] + tail;
      assert Contains(s, parts[0]) by {
        assert OccursAt(s, s[..i], 0);
      }
      assert Contains(s, rest) by {
        assert OccursAt(s, rest, i + |sep|);
      }
      forall k | 1 <= k < |parts| ensures Contains(s, parts[k]) {
        assert parts[k] == tail[k - 1];
        ContainsTrans(s, rest, parts[k]);
      }
    }
  }

  /** The trim of a string is a substring of it. */
  lemma TrimInfix(s: string)
    ensures Contains(s, Trim(s))
  {
    var a := TrimStart(s);
    assert OccursAt(s, a, |s| - |a|);
    assert OccursAt(a, Trim(s), 0);
    ContainsTrans(s, a, Trim(s));
  }

  lemma {:induction false} RemoveCharConcat(a: string, b: string, c: char)
    ensures RemoveChar(a + b, c) == RemoveChar(a, c) + RemoveChar(b, c)
    decreases |a|
  {
    if a == [] {
      assert a + b == b;
    } else {
      assert (a + b)[0] == a[0] && (a + b)[1..] == a[1..] + b;
      RemoveCharConcat(a[1..], b, c);
    }
  }

  /** In a `[a-z0-9]` slug, the characters allowed in a URL path segment. */
  predicate IsSlugChar(c: char) {
    'a' <= c <= 'z' || '0' <= c <= '9'
  }

  /** No two adjacent hyphens. */
  predicate NoDoubleHyphen(s: string) {
    forall i :: 0 <= i < |s| - 1 ==> !(s[i] == '-' && s[i + 1] == '-')
  }

  /** Drops the leading run of characters outside `[a-z0-9]`. */
  function DropRun(s: string): (r: string)
    ensures |r| <= |s| && r == s[|s| - |r|..]
    ensures r == [] || IsSlugChar(r[0])
  {
    if s != [] && !IsSlugChar(s[0]) then
      var r := DropRun(s[1..]);
      assert s[1..][|s| - 1 - |r|..] == s[|s| - |r|..];
      r
    else s
  }

  /** `s.replace(/[^a-z0-9]+/g, '-')`: every maximal run of characters outside
      `[a-z0-9]` becomes a single hyphen. */
  function CollapseRuns(s: string): (r: string)
    ensures forall c :: c in r ==> IsSlugChar(c) || c == '-'
    ensures NoDoubleHyphen(r)
    ensures (r != [] && r[0] == '-') <==> (s != [] && !IsSlugChar(s[0]))
    ensures r == [] <==> s == []
    decreases |s|
  {
    if s == [] then []
    else if IsSlugChar(s[0]) then [s[0]] + CollapseRuns(s[1..])
    else "-" + CollapseRuns(DropRun(s))
  }

  /** Strings over `[a-z0-9-]` without a doubled hyphen: what `CollapseRuns` produces. */
  predicate Collapsed(s: string) {
    (forall c :: c in s ==> IsSlugChar(c) || c == '-') && NoDoubleHyphen(s)
  }

  lemma CollapsedTail(s: string)
    requires s != [] && Collapsed(s)
    ensures Collapsed(s[1..])
    ensures !IsSlugChar(s[0]) ==> s[0] == '-' && (s[1..] == [] || IsSlugChar(s[1..][0]))
  {
    assert s[0] in s;
    forall c | c in s[1..] ensures IsSlugChar(c) || c == '-' {
      assert c in s;
    }
    if |s| > 1 { assert s[1] in s; }
    forall i | 0 <= i < |s[1..]| - 1 ensures !(s[1..][i] == '-' && s[1..][i + 1] == '-') {
      assert s[1..][i] == s[i + 1] && s[1..][i + 1] == s[i + 2];
    }
  }

  /** An already collapsed string is left as it is. */
  lemma {:induction false} CollapseRunsFixed(s: string)
    requires Collapsed(s)
    ensures CollapseRuns(s) == s
    decreases |s|
  {
    if s != [] {
      CollapsedTail(s);
      CollapseRunsFixed(s[1..]);
      if !IsSlugChar(s[0]) {
        assert DropRun(s) == DropRun(s[1..]) == s[1..];
      }
    }
  }

  // ----- an independent description of `/[^a-z0-9]+/g` -----

  /** `c` itself when it is in `[a-z0-9]`, otherwise a hyphen. */
  function Mark(c: char): char {
    if IsSlugChar(c) then c else '-'
  }

  /** Every character outside `[a-z0-9]` replaced by its own hyphen. */
  function Marks(s: string): string
    decreases |s|
  {
    if s == [] then [] else [Mark(s[0])] + Marks(s[1..])
  }

  /** Every run of adjacent hyphens squeezed to one. */
  function Squeeze(t: string): string
    decreases |t|
  {
    if |t| < 2 then t
    else if t[0] == '-' && t[1] == '-' then Squeeze(t[1..])
    else [t[0]] + Squeeze(t[1..])
  }

  function Hyphens(k: nat): string
  {
    if k == 0 then [] else "-" + Hyphens(k - 1)
  }

  /** The characters of `s` in `[a-z0-9]`, in order. */
  function SlugChars(s: string): string
    decreases |s|
  {
    if s == [] then []
    else if IsSlugChar(s[0]) then [s[0]] + SlugChars(s[1..])
    else SlugChars(s[1..])
  }

  lemma SqueezeCons(c: char, u: string)
    requires c != '-'
    ensures Squeeze([c] + u) == [c] + Squeeze(u)
  {
    assert ([c] + u)[1..] == u;
  }

  lemma {:induction false} SqueezeHyphens(k: nat, u: string)
    requires k >= 1 && (u == [] || u[0] != '-')
    ensures Squeeze(Hyphens(k) + u) == "-" + Squeeze(u)
    decreases k
  {
    var t := Hyphens(k) + u;
    assert t[1..] == Hyphens(k - 1) + u;
    if k > 1 {
      assert Hyphens(k - 1)[0] == '-';
      SqueezeHyphens(k - 1, u);
    } else {
      assert t == "-" + u;
    }
  }

  /** The run `DropRun` skips marks as that many hyphens, and holds no
      character of `[a-z0-9]`. */
  lemma {:induction false} MarksRun(s: string)
    ensures Marks(s) == Hyphens(|s| - |DropRun(s)|) + Marks(DropRun(s))
    ensures SlugChars(s) == SlugChars(DropRun(s))
    decreases |s|
  {
    if s != [] && !IsSlugChar(s[0]) {
      var d := DropRun(s);
      assert d == DropRun(s[1..]);
      MarksRun(s[1..]);
      var k := |s| - |d|;
      assert Hyphens(k) == "-" + Hyphens(k - 1);
      assert Marks(s) == "-" + (Hyphens(k - 1) + Marks(d));
    }
  }

  /** `CollapseRuns` is the `[^a-z0-9]+ -> -` rewrite: marking every character
      outside `[a-z0-9]` and squeezing the hyphens gives the same string, so each
      hyphen of the result stands for exactly one maximal run. */
  lemma {:induction false} CollapseRunsSqueeze(s: string)
    ensures CollapseRuns(s) == Squeeze(Marks(s))
    decreases |s|
  {
    if s != [] {
      if IsSlugChar(s[0]) {
        CollapseRunsSqueeze(s[1..]);
        SqueezeCons(s[0], Marks(s[1..]));
      } else {
        var d := DropRun(s);
        CollapseRunsSqueeze(d);
        MarksRun(s);
        assert Marks(d) == [] || Marks(d)[0] == d[0] != '-';
        SqueezeHyphens(|s| - |d|, Marks(d));
      }
    }
  }

  /** `CollapseRuns` keeps the characters of `[a-z0-9]`, all of them and in order. */
  lemma {:induction false} CollapseRunsKeeps(s: string)
    ensures SlugChars(CollapseRuns(s)) == SlugChars(s)
    decreases |s|
  {
    if s != [] {
      if IsSlugChar(s[0]) {
        CollapseRunsKeeps(s[1..]);
        assert ([s[0]] + CollapseRuns(s[1..]))[1..] == CollapseRuns(s[1..]);
      } else {
        CollapseRunsKeeps(DropRun(s));
        MarksRun(s);
        assert ("-" + CollapseRuns(DropRun(s)))[1..] == CollapseRuns(DropRun(s));
      }
    }
  }

  lemma CollapsedSlice(s: string, lo: int, hi: int)
    requires 0 <= lo <= hi <= |s| && Collapsed(s)
    ensures Collapsed(s[lo..hi])
  {
    forall c | c in s[lo..hi] ensures IsSlugChar(c) || c == '-' {
      assert c in s;
    }
    forall i | 0 <= i < hi - lo - 1 ensures !(s[lo..hi][i] == '-' && s[lo..hi][i + 1] == '-') {
      assert s[lo..hi][i] == s[lo + i] && s[lo..hi][i + 1] == s[lo + i + 1];
    }
  }

  lemma ToLowerFixed(s: string)
    requires Collapsed(s)
    ensures ToLower(s) == s
  {
    forall i | 0 <= i < |s| ensures ToLower(s)[i] == s[i] {
      assert s[i] in s;
    }
  }

  function DigitChar(d: nat): (c: char)
    requires d < 10
    ensures '0' <= c <= '9'
  {
    "0123456789"[d]
  }

  function DigitValue(c: char): nat
    requires '0' <= c <= '9'
  {
    (c - '0') as nat
  }

  /** The decimal rendering of `n`, as a template literal `${n}` gives it. */
  function NatToString(n: nat): (r: string)
    ensures r != [] && forall k :: 0 <= k < |r| ==> '0' <= r[k] <= '9'
    decreases n
  {
    if n < 10 then [DigitChar(n)] else NatToString(n / 10) + [DigitChar(n % 10)]
  }

  /** The number a string of digits denotes. */
  function DecimalValue(s: string): nat
    requires forall k :: 0 <= k < |s| ==> '0' <= s[k] <= '9'
    decreases |s|
  {
    if s == [] then 0 else DecimalValue(s[..|s| - 1]) * 10 + DigitValue(s[|s| - 1])
  }

  lemma DigitRoundTrip(d: nat)
    requires d < 10
    ensures DigitValue(DigitChar(d)) == d
  {
  }

  /** Reading the printed number gives it back. */
  lemma {:induction false} NatToStringValue(n: nat)
    ensures DecimalValue(NatToString(n)) == n
    decreases n
  {
    var s := NatToString(n);
    DigitRoundTrip(n % 10);
    if n >= 10 {
      NatToStringValue(n / 10);
      assert s[..|s| - 1] == NatToString(n / 10);
    } else {
      assert s[..0] == [];
    }
  }
}
