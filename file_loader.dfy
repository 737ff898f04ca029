/** The browser-side Markdown loader: splitting a file into front matter and
    body, reading `key: value` lines, and deriving a slug from the title. */
module FileLoader {
  import opened Strings

  /** What `parseMarkdown` returns. */
  datatype Parsed = Parsed(
    title: string,
    description: string,
    category: string,
    tags: string,
    content: string,
    slug: string)

  /** The JavaScript `x || fallback` on strings: the empty string is falsy. */
  function Or(x: string, fallback: string): (r: string)
    ensures r == (if x == "" then fallback else x)
  {
    if x == "" then fallback else x
  }

  /** Reading a property of the front-matter object; a missing key is `undefined`, rendered "". */
  function Lookup(fm: map<string, string>, key: string): (r: string)
    ensures key in fm ==> r == fm[key]
    ensures key !in fm ==> r == ""
  {
    if key in fm then fm[key] else ""
  }

  /** A bracketed value `[a, "b"]` is turned into its comma items, each trimmed
      and stripped of every `"`, joined by ", "; any other value is kept as it is. */
  function ListValue(value: string): (r: string)
  {
    if StartsWith(value, "[") && EndsWith(value, "]") then
      assert |value| >= 2 by {
        assert value[0] == '[' && value[|value| - 1] == ']';
      }
      Join(CleanItems(Split(value[1..|value| - 1], ",")), ", ")
    else value
  }

  /** A value that does not open with `[` is kept as it is, quotes included. */
  lemma ListValuePlain(value: string)
    requires value == [] || value[0] != '['
    ensures ListValue(value) == value
  {
    assert !StartsWith(value, "[") by {
      if |value| >= 1 {
        assert value[..1][0] == value[0];
      }
    }
  }

  /** A bracketed value becomes its cleaned comma items joined by ", ". */
  lemma ListValueBracket(inner: string)
    ensures ListValue("[" + inner + "]") == Join(CleanItems(Split(inner, ",")), ", ")
  {
    var value := "[" + inner + "]";
    assert value[..1] == "[" && value[|value| - 1..] == "]";
    assert value[1..|value| - 1] == inner;
  }

  /** `item.trim().replace(/"/g, '')` for every item. */
  function CleanItems(items: seq<string>): (r: seq<string>)
    ensures |r| == |items|
    ensures forall k :: 0 <= k < |items| ==> r[k] == RemoveChar(Trim(items[k]), '"')
  {
    if items == [] then [] else [RemoveChar(Trim(items[0]), '"')] + CleanItems(items[1..])
  }

  /** One front-matter line: when it contains `:`, the trimmed text before the
      first `:` becomes the key and the rest, re-joined with `:` and trimmed,
      the value; a later duplicate key overwrites an earlier one. */
  function ParseLine(fm: map<string, string>, line: string): (r: map<string, string>)
    ensures !Contains(line, ":") ==> r == fm
  {
    if Contains(line, ":") then
      var parts := Split(line, ":");
      fm[Trim(parts[0]) := ListValue(Trim(Join(parts[1..], ":")))]
    else fm
  }

  /** The front-matter object after the `forEach` over `lines`, starting from `fm`. */
  function FoldLines(fm: map<string, string>, lines: seq<string>): map<string, string>
    decreases |lines|
  {
    if lines == [] then fm else FoldLines(ParseLine(fm, lines[0]), lines[1..])
  }

  /** The textbook reading of `parseMarkdown(content)`. */
  function ParseResult(content: string): Parsed
  {
    var parts := Split(content, "---");
    var fm := if |parts| >= 3 then FoldLines(map[], Split(parts[1], "\n")) else map[];
    var body := if |parts| >= 3 then Trim(Join(parts[2..], "---")) else content;
    Parsed(
      Or(Lookup(fm, "title"), ""),
      Or(Lookup(fm, "description"), ""),
      Or(Lookup(fm, "category"), "tech"),
      Or(Lookup(fm, "tags"), ""),
      body,
      Or(Lookup(fm, "slug"), GenerateSlug(Or(Lookup(fm, "title"), ""))))
  }

  /** The `forEach` over the front-matter lines, filling the object one line at a time. */
  method ReadFrontMatter(lines: seq<string>) returns (frontMatter: map<string, string>)
    ensures frontMatter == FoldLines(map[], lines)
  {
    frontMatter := map[];
    var i := 0;
    while i < |lines|
      invariant 0 <= i <= |lines|
      invariant FoldLines(frontMatter, lines[i..]) == FoldLines(map[], lines)
    {
      assert lines[i..][1..] == lines[i + 1..];
      frontMatter := ParseLine(frontMatter, lines[i]);
      i := i + 1;
    }
    assert lines[i..] == [];
  }

  /** `parseMarkdown`: the front matter is the text between the first and the
      second `---`; the body is everything after, with later `---` separators kept. */
  method ParseMarkdown(content: string) returns (r: Parsed)
    ensures r == ParseResult(content)
  {
    var parts := Split(content, "---");
    var frontMatter: map<string, string> := map[];
    var markdownContent := content;
    if |parts| >= 3 {
      markdownContent := Trim(Join(parts[2..], "---"));
      frontMatter := ReadFrontMatter(Split(parts[1], "\n"));
    }
    var title := Or(Lookup(frontMatter, "title"), "");
    r := Parsed(
      title,
      Or(Lookup(frontMatter, "description"), ""),
      Or(Lookup(frontMatter, "category"), "tech"),
      Or(Lookup(frontMatter, "tags"), ""),
      markdownContent,
      Or(Lookup(frontMatter, "slug"), GenerateSlug(title)));
  }

  /** `.replace(/(^-|-$)+/g, '')` applied to a string: a hyphen at the very
      start and a hyphen at the very end are removed, one each. */
  function StripEdgeHyphen(s: string): (r: string)
    ensures var a := if s != [] && s[0] == '-' then 1 else 0;
            var b := if |s| >= 2 && s[|s| - 1] == '-' then 1 else 0;
            a + b <= |s| && r == s[a..|s| - b]
    ensures |r| <= |s|
  {
    var t := if s != [] && s[0] == '-' then s[1..] else s;
    if t != [] && t[|t| - 1] == '-' then t[..|t| - 1] else t
  }

  /** `generateSlug(title)`: lower-case, collapse runs outside `[a-z0-9]` into
      a hyphen, then drop an edge hyphen at each end. */
  function GenerateSlug(title: string): (r: string)
    ensures Collapsed(r)
    ensures r == [] || (r[0] != '-' && r[|r| - 1] != '-')
  {
    var c := CollapseRuns(ToLower(title));
    StripEdgeHyphenOfCollapsed(c);
    StripEdgeHyphen(c)
  }

  /** On a collapsed string the one-hyphen strip leaves no edge hyphen. */
  lemma StripEdgeHyphenOfCollapsed(c: string)
    requires Collapsed(c)
    ensures var r := StripEdgeHyphen(c);
      Collapsed(r) && (r == [] || (r[0] != '-' && r[|r| - 1] != '-'))
  {
    var t := if c != [] && c[0] == '-' then c[1..] else c;
    if c != [] && c[0] == '-' {
      CollapsedSlice(c, 1, |c|);
      assert |c| > 1 ==> c[1] != '-';
    }
    assert Collapsed(t) && (t == [] || t[0] != '-');
    if t != [] && t[|t| - 1] == '-' {
      CollapsedSlice(t, 0, |t| - 1);
      assert |t| > 1 ==> t[|t| - 2] != '-';
    }
  }
}
