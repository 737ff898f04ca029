/** `MarpPreview`: the title a saved deck gets, the deck a new editor starts
    with, and the slide index behind the navigation buttons and the counter.
    Which slides are in view is an input: one flag per `section`. */
module MarpPreview {
  import opened Optional
  import opened Strings

  // ----- the title -----

  /** The characters JavaScript's `.` does not match. */
  predicate IsLineTerminator(c: char) {
    c == '\n' || c == '\r' || c == '\U{2028}' || c == '\U{2029}'
  }

  predicate NoTerminator(s: string) {
    forall k :: 0 <= k < |s| ==> !IsLineTerminator(s[k])
  }

  /** How far `.*` reaches from `from`: the first line terminator, or the end. */
  function LineEnd(s: string, from: nat): (j: nat)
    requires from <= |s|
    ensures from <= j <= |s| && (j < |s| ==> IsLineTerminator(s[j]))
    ensures forall k :: from <= k < j ==> !IsLineTerminator(s[k])
    decreases |s| - from
  {
    if from == |s| || IsLineTerminator(s[from]) then from else LineEnd(s, from + 1)
  }

  /** An end that satisfies both conditions is the line's end. */
  lemma LineEndAt(s: string, from: nat, j: nat)
    requires from <= j <= |s| && (j < |s| ==> IsLineTerminator(s[j]))
    requires forall k :: from <= k < j ==> !IsLineTerminator(s[k])
    ensures LineEnd(s, from) == j
  {
  }

  /** `/# (.*?)($|\n)/` tried at index `i`: `# `, then the lazy group grows
      until `$` (the end of the input, as there is no `m` flag) or `\n`
      follows; any other terminator stops `.` and this attempt fails. */
  function MatchAt(s: string, i: nat): (r: Option<string>)
    requires i <= |s|
    ensures r.Some? ==> OccursAt(s, "# ", i) && NoTerminator(r.value)
  {
    if OccursAt(s, "# ", i) then
      var j := LineEnd(s, i + 2);
      if j == |s| || s[j] == '\n' then Some(s[i + 2..j]) else None
    else None
  }

  /** Where `match` finds its first match at or after `i`, or -1. */
  function MatchIndex(s: string, i: nat): (k: int)
    requires i <= |s|
    ensures k == -1 || (i <= k <= |s| && MatchAt(s, k).Some?)
    ensures forall j :: i <= j <= |s| && (k == -1 || j < k) ==> MatchAt(s, j).None?
    decreases |s| - i
  {
    if MatchAt(s, i).Some? then i
    else if i == |s| then -1
    else MatchIndex(s, i + 1)
  }

  const Untitled: string := "Untitled Presentation"

  /** `extractTitle(content)`: group 1 of the first match, or the fallback. */
  function ExtractTitle(content: string): (r: string)
    ensures NoTerminator(r)
    ensures !Contains(content, "# ") ==> r == Untitled
  {
    var k := MatchIndex(content, 0);
    if k < 0 then Untitled
    else
      assert OccursAt(content, "# ", k);
      MatchAt(content, k).value
  }

  /** No `# ` starts inside a prefix free of `# ` that is followed by `#`. */
  lemma NoEarlyHeading(prefix: string, rest: string)
    requires !Contains(prefix, "# ") && rest != [] && rest[0] == '#'
    ensures forall j :: 0 <= j < |prefix| ==> !OccursAt(prefix + rest, "# ", j)
  {
    var s := prefix + rest;
    var p := |prefix|;
    forall j | 0 <= j < p ensures !OccursAt(s, "# ", j) {
      if j + 2 <= p {
        assert s[j..j + 2] == prefix[j..j + 2];
        assert !OccursAt(prefix, "# ", j);
      } else {
        assert s[j..j + 2][1] == s[p] == '#';
      }
    }
  }

  /** Without `#` there is no `# `. */
  lemma NoHash(s: string)
    requires '#' !in s
    ensures !Contains(s, "# ")
  {
    forall i | 0 <= i <= |s| - 2 ensures !OccursAt(s, "# ", i) {
      assert s[i..i + 2][0] == s[i];
    }
  }

  /** The first `# ` decides when its line ends with `\n` or the input: the
      title is the rest of that line, wherever the `# ` sits (after `#`, in
      mid-line). */
  lemma FirstHeading(prefix: string, title: string, tail: string)
    requires !Contains(prefix, "# ") && NoTerminator(title)
    requires tail == [] || tail[0] == '\n'
    ensures ExtractTitle(prefix + "# " + title + tail) == title
  {
    var s := prefix + "# " + title + tail;
    var p := |prefix|;
    NoEarlyHeading(prefix, "# " + title + tail);
    assert s == prefix + ("# " + title + tail);
    assert s[p..p + 2] == "# ";
    LineEndAt(s, p + 2, p + 2 + |title|);
    assert s[p + 2..p + 2 + |title|] == title;
    assert MatchAt(s, p) == Some(title);
    assert MatchIndex(s, 0) == p;
  }

  /** The line a new deck starts with. */
  const DeckHead: string := "---\n" + "marp: true\n" + "theme: default\n" + "paginate: true\n" + "---\n" + "\n"
  const DeckRest: string := "\nYour first slide here\n\n---\n\n## Second Slide\n\nContent for the second slide"

  /** The deck `setupEditor` puts into an empty editor. */
  const DefaultDeck: string := DeckHead + "# " + "My Presentation" + "\n" + DeckRest

  /** `if (!this.codeMirror.getValue()) this.codeMirror.setValue(...)` */
  function InitialContent(value: string): (r: string)
    ensures value != "" ==> r == value
    ensures value == "" ==> r == DefaultDeck
  {
    if value == "" then DefaultDeck else value
  }

  /** A new deck is saved under the title `My Presentation`. */
  lemma DefaultDeckTitle()
    ensures ExtractTitle(InitialContent("")) == "My Presentation"
  {
    assert '#' !in "---\n" && '#' !in "marp: true\n" && '#' !in "theme: default\n";
    assert '#' !in "paginate: true\n" && '#' !in "\n";
    NoHash(DeckHead);
    var t := "My Presentation";
    assert forall k :: 0 <= k < |t| ==> !IsLineTerminator(t[k]);
    FirstHeading(DeckHead, t, "\n" + DeckRest);
    assert DefaultDeck == DeckHead + "# " + t + ("\n" + DeckRest);
  }

  /** A heading line ended by `\r\n` is not matched: `.` stops at `\r`,
      which is neither `$` nor `\n`. */
  lemma CrlfTitleMissed(title: string)
    requires NoTerminator(title) && '#' !in title
    ensures ExtractTitle("# " + title + "\r\n") == Untitled
  {
    var s := "# " + title + "\r\n";
    LineEndAt(s, 2, 2 + |title|);
    assert s[2 + |title|] == '\r';
    forall j | 1 <= j <= |s| ensures MatchAt(s, j).None? {
      if j + 2 <= |s| {
        assert s[j..j + 2][0] == s[j];
        if j == 1 {
          assert s[j] == ' ';
        } else if j < 2 + |title| {
          assert s[j] == title[j - 2];
        } else {
          assert s[j] == '\r';
        }
      }
    }
    assert MatchAt(s, 0).None?;
  }

  /** The title with every line terminator ending the heading line: the
      rest of the line after the first `# `. */
  function ExtractTitleFixed(content: string): (r: string)
    ensures NoTerminator(r)
    ensures r == Untitled || Contains(content, "# ")
    ensures !Contains(content, "# ") ==> r == Untitled
  {
    var k := IndexOf(content, "# ");
    if k < 0 then Untitled else content[k + 2..LineEnd(content, k + 2)]
  }

  /** The fixed title of a `\r\n` heading is its text. */
  lemma CrlfTitleFixed(title: string)
    requires NoTerminator(title) && '#' !in title
    ensures ExtractTitleFixed("# " + title + "\r\n") == title
  {
    var s := "# " + title + "\r\n";
    assert s[0..2] == "# ";
    assert OccursAt(s, "# ", 0);
    assert IndexOf(s, "# ") == 0;
    LineEndAt(s, 2, 2 + |title|);
    assert s[2..2 + |title|] == title;
  }

  /** The fixed title is the rest of the first heading's line. */
  lemma FixedHeading(prefix: string, title: string, tail: string)
    requires !Contains(prefix, "# ") && NoTerminator(title)
    requires tail == [] || IsLineTerminator(tail[0])
    ensures ExtractTitleFixed(prefix + "# " + title + tail) == title
  {
    var s := prefix + "# " + title + tail;
    var p := |prefix|;
    NoEarlyHeading(prefix, "# " + title + tail);
    assert s == prefix + ("# " + title + tail);
    assert s[p..p + 2] == "# ";
    assert OccursAt(s, "# ", p);
    assert IndexOf(s, "# ") == p;
    LineEndAt(s, p + 2, p + 2 + |title|);
    assert s[p + 2..p + 2 + |title|] == title;
  }

  /** Where the first heading's line ends with `\n` or the input, the fixed
      title is the one the source finds. */
  lemma FixedAgrees(prefix: string, title: string, tail: string)
    requires !Contains(prefix, "# ") && NoTerminator(title)
    requires tail == [] || tail[0] == '\n'
    ensures ExtractTitleFixed(prefix + "# " + title + tail) == ExtractTitle(prefix + "# " + title + tail) == title
  {
    FirstHeading(prefix, title, tail);
    FixedHeading(prefix, title, tail);
  }

  // ----- slides -----

  /** `getCurrentSlideIndex()`'s answer: the first slide in view, or 0 when none is. */
  function FirstVisible(visible: seq<bool>): (r: nat)
    ensures (exists k :: 0 <= k < |visible| && visible[k]) ==>
      (r < |visible| && visible[r] && forall k :: 0 <= k < r ==> !visible[k])
    ensures (forall k :: 0 <= k < |visible| ==> !visible[k]) ==> r == 0
    decreases |visible|
  {
    if visible == [] || visible[0] then 0
    else
      var rest := visible[1..];
      var i := FirstVisible(rest);
      assert forall k :: 1 <= k < |visible| ==> visible[k] == rest[k - 1];
      if i < |rest| && rest[i] then i + 1 else 0
  }

  /** The `for` loop with its early `return i`. */
  method CurrentSlideIndex(visible: seq<bool>) returns (index: nat)
    ensures index == FirstVisible(visible)
  {
    var i := 0;
    while i < |visible|
      invariant 0 <= i <= |visible|
      invariant forall k :: 0 <= k < i ==> !visible[k]
    {
      if visible[i] {
        return i;
      }
      i := i + 1;
    }
    return 0;
  }

  /** The slide `previousSlide` scrolls to, if any. */
  function PreviousTarget(visible: seq<bool>): (r: Option<nat>)
    ensures r.Some? <==> FirstVisible(visible) > 0
    ensures r.Some? ==> r.value < |visible| && r.value + 1 == FirstVisible(visible)
  {
    var current := FirstVisible(visible);
    if current > 0 then Some(current - 1) else None
  }

  /** The slide `nextSlide` scrolls to, if any. */
  function NextTarget(visible: seq<bool>): (r: Option<nat>)
    ensures r.Some? <==> FirstVisible(visible) + 1 < |visible|
    ensures r.Some? ==> r.value < |visible| && r.value == FirstVisible(visible) + 1
  {
    var current := FirstVisible(visible);
    if current < |visible| - 1 then Some(current + 1) else None
  }

  method PreviousSlide(visible: seq<bool>) returns (target: Option<nat>)
    ensures target == PreviousTarget(visible)
  {
    var current := CurrentSlideIndex(visible);
    target := if current > 0 then Some(current - 1) else None;
  }

  method NextSlide(visible: seq<bool>) returns (target: Option<nat>)
    ensures target == NextTarget(visible)
  {
    var current := CurrentSlideIndex(visible);
    target := if current < |visible| - 1 then Some(current + 1) else None;
  }

  // ----- the counter -----

  /** `Slide ${currentSlide} / ${totalSlides}` */
  function CounterText(current: nat, total: nat): string {
    "Slide " + NatToString(current) + " / " + NatToString(total)
  }

  /** `updateSlideCounter()`: the one-based index of the current slide over the count. */
  method UpdateSlideCounter(visible: seq<bool>) returns (text: string)
    ensures text == CounterText(FirstVisible(visible) + 1, |visible|)
  {
    var current := CurrentSlideIndex(visible);
    text := CounterText(current + 1, |visible|);
  }

  /** The counter's numbers: a slide within the deck of slides, except that
      a deck without slides reads `Slide 1 / 0`. */
  lemma CounterBounds(visible: seq<bool>)
    ensures 1 <= FirstVisible(visible) + 1
    ensures |visible| > 0 ==> FirstVisible(visible) + 1 <= |visible|
    ensures |visible| == 0 ==> FirstVisible(visible) + 1 == 1
  {
  }

  /** With no slides the counter reads `Slide 1 / 0`. */
  lemma EmptyDeckCounter()
    ensures CounterText(1, 0) == "Slide 1 / 0"
  {
    assert NatToString(1) == "1" && NatToString(0) == "0";
  }
}
