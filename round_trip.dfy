/** What the loader reads back from a file the editor's serialiser wrote:
    `parseMarkdown(createMarkdownFile(d))`. */
module RoundTrip {
  import opened Strings
  import opened FileLoader
  import opened PostCreator

  const DQ: string := "\""
  const NL: string := "\n"
  const Dashes: string := "---"

  /** A scalar field as the serialiser writes it: `key: "value"`. */
  function ScalarLine(key: string, v: string): string {
    key + ":" + (" " + Quote(v))
  }

  /** The tags field as the serialiser writes it: `tags: [...]`. */
  function TagsLine(rendered: string): string {
    "tags" + ":" + (" " + ("[" + rendered + "]"))
  }

  /** The text between the opening and the closing `---`. */
  function Block(l1: string, l2: string, l3: string, l4: string, l5: string): string {
    NL + l1 + NL + l2 + NL + l3 + NL + l4 + NL + l5 + NL
  }

  /** What a scalar field may hold for the file to read back: no `{` (which a
      later placeholder replace could hit), no line break and no `---`. */
  predicate SafeScalar(s: string) {
    '{' !in s && '\n' !in s && !Contains(s, "---")
  }

  /** What the tag string may hold: no `"` (the loader deletes them), no line
      break and no `---`. */
  predicate SafeTags(s: string) {
    '"' !in s && '\n' !in s && !Contains(s, "---")
  }

  /** The block the serialiser writes for the scalar fields and the rendered tags. */
  function FrontBlock(t: string, de: string, dt: string, c: string, rendered: string): string {
    Block(ScalarLine("title", t), ScalarLine("description", de), ScalarLine("date", dt),
      ScalarLine("category", c), TagsLine(rendered))
  }

  /** The loader gets back the trimmed body, every scalar still wrapped in the
      quotes the serialiser put around it, the normalised tag list joined by
      ", ", and the slug of the quoted title. */
  lemma RoundTrip(d: PostData, isoTimestamp: string)
    requires SafeScalar(d.title) && SafeScalar(d.description) && SafeScalar(d.category)
    requires SafeScalar(DateOf(isoTimestamp))
    requires SafeTags(d.tags)
    ensures var p := ParseResult(CreateMarkdownFile(d, isoTimestamp));
      && p.content == Trim(d.content)
      && p.title == Quote(d.title)
      && p.description == Quote(d.description)
      && p.category == Quote(d.category)
      && p.tags == Join(TagList(d.tags), ", ")
      && p.slug == GenerateSlug(Quote(d.title))
  {
    var date := DateOf(isoTimestamp);
    var ts := TagList(d.tags);
    var rendered := Join(QuoteAll(ts), ", ");
    var file := CreateMarkdownFile(d, isoTimestamp);
    var block := FrontBlock(d.title, d.description, date, d.category, rendered);
    assert file == FrontMatterText(d.title, d.description, date, d.category, rendered) + "\n" + d.content by {
      FrontMatterLayout(d, isoTimestamp);
    }
    assert !Contains(rendered, "---") && '\n' !in rendered by {
      TagsSafe(d.tags);
      QuotedJoinSafe(ts);
    }
    assert SplitsAs(file, block, Trim(d.content)) by {
      FileSplits(d.title, d.description, date, d.category, rendered, d.content);
      TrimAfterBreaks(d.content);
    }
    assert FoldLines(map[], Split(block, "\n"))
        == map["title" := Quote(d.title), "description" := Quote(d.description), "date" := Quote(date),
               "category" := Quote(d.category), "tags" := Join(ts, ", ")] by {
      TagsSafe(d.tags);
      TagsValue(ts);
      BlockFields(d.title, d.description, date, d.category, rendered, Join(ts, ", "));
    }
    ParsedFrom(file, block, Trim(d.content), Quote(d.title), Quote(d.description), Quote(date),
      Quote(d.category), Join(ts, ", "));
  }

  /** The file splits on `---` into an empty head, the block, and a body that trims to `body`. */
  predicate SplitsAs(file: string, block: string, body: string) {
    var parts := Split(file, "---");
    |parts| >= 3 && parts[1] == block && Trim(Join(parts[2..], "---")) == body
  }

  /** What the loader returns once the block has folded to the five fields. */
  lemma ParsedFrom(file: string, block: string, body: string,
                   t: string, de: string, dt: string, c: string, tagsValue: string)
    requires SplitsAs(file, block, body)
    requires FoldLines(map[], Split(block, "\n"))
          == map["title" := t, "description" := de, "date" := dt, "category" := c, "tags" := tagsValue]
    requires t != "" && c != ""
    ensures var p := ParseResult(file);
      p == Parsed(t, de, c, tagsValue, body, GenerateSlug(t))
  {
    var fm := FoldLines(map[], Split(block, "\n"));
    assert Lookup(fm, "title") == t && Lookup(fm, "description") == de && Lookup(fm, "category") == c
        && Lookup(fm, "tags") == tagsValue && Lookup(fm, "slug") == "" by {
      FieldsOf(t, de, dt, c, tagsValue);
    }
  }

  /** Reading the five-field object back, key by key. */
  lemma FieldsOf(t: string, de: string, dt: string, c: string, tagsValue: string)
    ensures var m := map["title" := t, "description" := de, "date" := dt, "category" := c, "tags" := tagsValue];
      && Lookup(m, "title") == t && Lookup(m, "description") == de && Lookup(m, "date") == dt
      && Lookup(m, "category") == c && Lookup(m, "tags") == tagsValue && Lookup(m, "slug") == ""
  {
    KeysDistinct();
  }

  /** The serialiser's keys differ from each other and from `slug`. */
  lemma KeysDistinct()
    ensures "title" != "description" && "title" != "date" && "title" != "category" && "title" != "tags"
    ensures "description" != "date" && "description" != "category" && "description" != "tags"
    ensures "date" != "category" && "date" != "tags" && "category" != "tags"
    ensures "slug" != "title" && "slug" != "description" && "slug" != "date"
    ensures "slug" != "category" && "slug" != "tags"
  {
    assert "title"[0] == 't' && "description"[0] == 'd' && "date"[0] == 'd' && "category"[0] == 'c';
    assert "tags"[0] == 't' && "slug"[0] == 's' && "title"[1] == 'i' && "tags"[1] == 'a';
    assert "description"[1] == 'e' && "date"[1] == 'a';
  }

  /** The only `---` before the body are the two the serialiser wrote. */
  lemma FileSplits(t: string, de: string, dt: string, c: string, rendered: string, body: string)
    requires !Contains(t, "---") && !Contains(de, "---") && !Contains(dt, "---") && !Contains(c, "---")
    requires !Contains(rendered, "---")
    ensures var parts := Split(FrontMatterText(t, de, dt, c, rendered) + "\n" + body, "---");
      |parts| >= 3 && parts[1] == FrontBlock(t, de, dt, c, rendered)
      && Join(parts[2..], "---") == NL + NL + NL + body
  {
    var block := FrontBlock(t, de, dt, c, rendered);
    var rest := NL + NL + NL + body;
    FileShape(t, de, dt, c, rendered, body);
    assert Clean(block, Dashes) by {
      BlockClean(t, de, dt, c, rendered);
    }
    SplitFile(block, rest, Dashes);
    JoinSplit(rest, Dashes);
  }

  lemma BlockClean(t: string, de: string, dt: string, c: string, rendered: string)
    requires !Contains(t, "---") && !Contains(de, "---") && !Contains(dt, "---") && !Contains(c, "---")
    requires !Contains(rendered, "---")
    ensures Clean(FrontBlock(t, de, dt, c, rendered), Dashes)
  {
    ScalarLineNoDashes("title", t);
    ScalarLineNoDashes("description", de);
    ScalarLineNoDashes("date", dt);
    ScalarLineNoDashes("category", c);
    TagsLineNoDashes(rendered);
    BlockNoDashes(ScalarLine("title", t), ScalarLine("description", de),
      ScalarLine("date", dt), ScalarLine("category", c), TagsLine(rendered));
  }

  /** Folding the block's lines yields one entry per field. */
  lemma BlockFields(t: string, de: string, dt: string, c: string, rendered: string, tagsValue: string)
    requires '\n' !in t && '\n' !in de && '\n' !in dt && '\n' !in c && '\n' !in rendered
    requires ListValue(Trim(" " + ("[" + rendered + "]"))) == tagsValue
    ensures FoldLines(map[], Split(FrontBlock(t, de, dt, c, rendered), "\n"))
         == map["title" := Quote(t), "description" := Quote(de), "date" := Quote(dt),
                "category" := Quote(c), "tags" := tagsValue]
  {
    var l1, l2, l3 := ScalarLine("title", t), ScalarLine("description", de), ScalarLine("date", dt);
    var l4, l5 := ScalarLine("category", c), TagsLine(rendered);
    KeysPlain();
    assert Split(FrontBlock(t, de, dt, c, rendered), "\n") == ["", l1, l2, l3, l4, l5, ""] by {
      ScalarLineOneLine("title", t);
      ScalarLineOneLine("description", de);
      ScalarLineOneLine("date", dt);
      ScalarLineOneLine("category", c);
      assert '\n' !in l5;
      BlockLines(l1, l2, l3, l4, l5);
    }
    var m1 := map[]["title" := Quote(t)];
    var m2 := m1["description" := Quote(de)];
    var m3 := m2["date" := Quote(dt)];
    var m4 := m3["category" := Quote(c)];
    var m5 := m4["tags" := tagsValue];
    ParseScalarLine(map[], "title", t);
    ParseScalarLine(m1, "description", de);
    ParseScalarLine(m2, "date", dt);
    ParseScalarLine(m3, "category", c);
    TrimFixed("tags");
    ParseLineKeyValue(m4, "tags", " " + ("[" + rendered + "]"), tagsValue);
    FoldSevenLines(l1, l2, l3, l4, l5, m1, m2, m3, m4, m5);
  }

  /** The constant pieces of the template, split at line and field boundaries. */
  lemma TemplatePieces()
    ensures OpenTitle == Dashes + NL + "title" + ":" + " " + DQ
    ensures OpenDescription == DQ + NL + "description" + ":" + " " + DQ
    ensures OpenDate == DQ + NL + "date" + ":" + " " + DQ
    ensures OpenCategory == DQ + NL + "category" + ":" + " " + DQ
    ensures OpenTags == DQ + NL + "tags" + ":" + " " + "["
    ensures CloseFrontMatter == "]" + NL + Dashes + NL + NL
  {
  }

  /** The written file is an empty piece, `---`, the block, `---`, then the body
      behind three line breaks. */
  lemma FileShape(t: string, de: string, dt: string, c: string, tg: string, body: string)
    ensures FrontMatterText(t, de, dt, c, tg) + "\n" + body
         == "" + Dashes + (Block(ScalarLine("title", t), ScalarLine("description", de), ScalarLine("date", dt),
                                 ScalarLine("category", c), TagsLine(tg)) + Dashes + (NL + NL + NL + body))
  {
    var l1, l2, l3 := ScalarLine("title", t), ScalarLine("description", de), ScalarLine("date", dt);
    var l4, l5 := ScalarLine("category", c), TagsLine(tg);
    // Each field's opening piece ends the line before it; its closing quote starts the next piece.
    var p1 := OpenTitle + t;
    var r1 := Dashes + NL + l1;
    assert p1 + DQ == r1 by {
      TemplatePieces();
      LineClose(Dashes, NL, "title", ":", " ", DQ, t, DQ);
    }
    var p2 := p1 + OpenDescription + de;
    var r2 := r1 + NL + l2;
    assert p2 + DQ == r2 by {
      TemplatePieces();
      LineOpen(p1, DQ, NL, "description", ":", " ", DQ, de);
      LineClose(r1, NL, "description", ":", " ", DQ, de, DQ);
    }
    var p3 := p2 + OpenDate + dt;
    var r3 := r2 + NL + l3;
    assert p3 + DQ == r3 by {
      TemplatePieces();
      LineOpen(p2, DQ, NL, "date", ":", " ", DQ, dt);
      LineClose(r2, NL, "date", ":", " ", DQ, dt, DQ);
    }
    var p4 := p3 + OpenCategory + c;
    var r4 := r3 + NL + l4;
    assert p4 + DQ == r4 by {
      TemplatePieces();
      LineOpen(p3, DQ, NL, "category", ":", " ", DQ, c);
      LineClose(r3, NL, "category", ":", " ", DQ, c, DQ);
    }
    var p5 := p4 + OpenTags + tg;
    var r5 := r4 + NL + l5;
    assert p5 + "]" == r5 by {
      TemplatePieces();
      LineOpen(p4, DQ, NL, "tags", ":", " ", "[", tg);
      LineClose(r4, NL, "tags", ":", " ", "[", tg, "]");
    }
    assert FrontMatterText(t, de, dt, c, tg) == r5 + NL + Dashes + NL + NL by {
      TemplatePieces();
      LineOpen(p5, "]", NL, Dashes, NL, NL, [], []);
    }
    Tail(Dashes, NL, l1, l2, l3, l4, l5, body);
  }

  /** Appending a field's opening piece: the quote closing the previous line moves to that line. */
  lemma LineOpen(r: string, close: string, nl: string, key: string, colon: string, sp: string, open: string, v: string)
    ensures r + (close + nl + key + colon + sp + open) + v == r + close + nl + key + colon + sp + open + v
  {
  }

  lemma LineClose(r: string, nl: string, key: string, colon: string, sp: string, open: string, v: string, close: string)
    ensures r + nl + key + colon + sp + open + v + close == r + nl + (key + colon + (sp + (open + v + close)))
  {
  }

  lemma Tail(dash: string, nl: string, l1: string, l2: string, l3: string, l4: string, l5: string, body: string)
    ensures dash + nl + l1 + nl + l2 + nl + l3 + nl + l4 + nl + l5 + nl + dash + nl + nl + nl + body
         == "" + dash + ((nl + l1 + nl + l2 + nl + l3 + nl + l4 + nl + l5 + nl) + dash + (nl + nl + nl + body))
  {
  }

  /** A string with no `---` stays so between two pieces without a hyphen. */
  lemma NoDashes3(a: string, v: string, b: string)
    requires '-' !in a && '-' !in b && a != [] && b != []
    requires !Contains(v, "---")
    ensures !Contains(a + v + b, "---")
  {
    CleanNoChar(a, "---");
    CleanNoChar(b, "---");
    NoOccConcat(a, v, "---");
    NoOccConcat(a + v, b, "---");
  }

  lemma ScalarLineNoDashes(key: string, v: string)
    requires '-' !in key && !Contains(v, "---")
    ensures !Contains(ScalarLine(key, v), "---")
  {
    assert ScalarLine(key, v) == (key + ": \"") + v + "\"";
    NoDashes3(key + ": \"", v, "\"");
  }

  lemma TagsLineNoDashes(tg: string)
    requires !Contains(tg, "---")
    ensures !Contains(TagsLine(tg), "---")
  {
    assert TagsLine(tg) == "tags: [" + tg + "]";
    NoDashes3("tags: [", tg, "]");
  }

  /** The tags inherit what the tag string is free of. */
  lemma TagsSafe(tags: string)
    requires SafeTags(tags)
    ensures forall k :: 0 <= k < |TagList(tags)| ==>
      '"' !in TagList(tags)[k] && '\n' !in TagList(tags)[k] && !Contains(TagList(tags)[k], "---")
  {
    var ts := TagList(tags);
    TagListInfix(tags);
    forall k | 0 <= k < |ts| ensures '"' !in ts[k] && '\n' !in ts[k] && !Contains(ts[k], "---") {
      NoOccInInfix(tags, ts[k], "---");
      CharsOfInfix(tags, ts[k]);
    }
  }

  lemma {:induction false} QuotedJoinSafe(ts: seq<string>)
    requires forall k :: 0 <= k < |ts| ==> !Contains(ts[k], "---") && '\n' !in ts[k]
    ensures !Contains(Join(QuoteAll(ts), ", "), "---") && '\n' !in Join(QuoteAll(ts), ", ")
  {
    if |ts| == 1 {
      NoDashes3("\"", ts[0], "\"");
    } else if |ts| > 1 {
      var q := QuoteAll(ts);
      assert q[1..] == QuoteAll(ts[1..]);
      QuotedJoinSafe(ts[1..]);
      NoDashes3("\"", ts[0], "\"");
      var tail := Join(q[1..], ", ");
      assert Join(q, ", ") == Quote(ts[0]) + ", " + tail;
      CleanNoChar(", ", "---");
      NoOccConcat(Quote(ts[0]), ", ", "---");
      NoOccConcat(Quote(ts[0]) + ", ", tail, "---");
    }
  }

  lemma BlockNoDashes(l1: string, l2: string, l3: string, l4: string, l5: string)
    requires !Contains(l1, "---") && !Contains(l2, "---") && !Contains(l3, "---")
    requires !Contains(l4, "---") && !Contains(l5, "---")
    ensures Clean(Block(l1, l2, l3, l4, l5), Dashes)
  {
    CleanNoChar(NL, Dashes);
    var x := NL;
    NoOccConcat(x, l1, Dashes);
    x := x + l1;
    NoOccConcat(x, NL, Dashes);
    x := x + NL;
    NoOccConcat(x, l2, Dashes);
    x := x + l2;
    NoOccConcat(x, NL, Dashes);
    x := x + NL;
    NoOccConcat(x, l3, Dashes);
    x := x + l3;
    NoOccConcat(x, NL, Dashes);
    x := x + NL;
    NoOccConcat(x, l4, Dashes);
    x := x + l4;
    NoOccConcat(x, NL, Dashes);
    x := x + NL;
    NoOccConcat(x, l5, Dashes);
    x := x + l5;
    NoOccConcat(x, NL, Dashes);
    x := x + NL;
    assert x == Block(l1, l2, l3, l4, l5);
  }

  /** The file splits at `---` into the empty prefix, the block, and the body's pieces. */
  lemma SplitFile(block: string, rest: string, sep: string)
    requires sep != [] && Clean(block, sep)
    ensures Split("" + sep + (block + sep + rest), sep) == ["", block] + Split(rest, sep)
  {
    SplitCons("", sep, block + sep + rest);
    SplitCons(block, sep, rest);
  }

  /** Leading white space does not change a trim. */
  /** The blank lines between the closing `---` and the body vanish under trimming. */
  lemma TrimAfterBreaks(s: string)
    ensures Trim(NL + NL + NL + s) == Trim(s)
  {
    var w := NL + NL + NL;
    assert AllSpace(w) by {
      assert w == "\n\n\n";
      assert IsSpace('\n');
    }
    TrimStartSpaces(w, s);
  }

  lemma BlockLines(l1: string, l2: string, l3: string, l4: string, l5: string)
    requires '\n' !in l1 && '\n' !in l2 && '\n' !in l3 && '\n' !in l4 && '\n' !in l5
    ensures Split(Block(l1, l2, l3, l4, l5), "\n") == ["", l1, l2, l3, l4, l5, ""]
  {
    BlockNested(l1, l2, l3, l4, l5);
    SplitNested(l1, l2, l3, l4, l5, '\n');
  }

  lemma BlockNested(l1: string, l2: string, l3: string, l4: string, l5: string)
    ensures Block(l1, l2, l3, l4, l5)
         == "" + NL + (l1 + NL + (l2 + NL + (l3 + NL + (l4 + NL + (l5 + NL + "")))))
  {
  }

  lemma JoinSeven(l1: string, l2: string, l3: string, l4: string, l5: string, sep: string)
    ensures Join(["", l1, l2, l3, l4, l5, ""], sep)
         == "" + sep + (l1 + sep + (l2 + sep + (l3 + sep + (l4 + sep + (l5 + sep + "")))))
  {
    var parts := ["", l1, l2, l3, l4, l5, ""];
    assert Join(parts[6..], sep) == "";
    assert parts[5..] == [l5] + parts[6..];
    JoinCons(l5, parts[6..], sep);
    assert parts[4..] == [l4] + parts[5..];
    JoinCons(l4, parts[5..], sep);
    assert parts[3..] == [l3] + parts[4..];
    JoinCons(l3, parts[4..], sep);
    assert parts[2..] == [l2] + parts[3..];
    JoinCons(l2, parts[3..], sep);
    assert parts[1..] == [l1] + parts[2..];
    JoinCons(l1, parts[2..], sep);
    assert parts == [""] + parts[1..];
    JoinCons("", parts[1..], sep);
  }
  lemma SplitNested(l1: string, l2: string, l3: string, l4: string, l5: string, c: char)
    requires c !in l1 && c !in l2 && c !in l3 && c !in l4 && c !in l5
    ensures Split("" + [c] + (l1 + [c] + (l2 + [c] + (l3 + [c] + (l4 + [c] + (l5 + [c] + ""))))), [c])
         == ["", l1, l2, l3, l4, l5, ""]
  {
    var parts := ["", l1, l2, l3, l4, l5, ""];
    JoinSeven(l1, l2, l3, l4, l5, [c]);
    forall k | 0 <= k < |parts| ensures c !in parts[k] {
    }
    forall k | 0 <= k < |parts| ensures Clean(parts[k], [c]) {
      CleanSingle(parts[k], c);
    }
    SplitJoin(parts, [c]);
  }

  /** A line `key:rest` sets the trimmed key to the trimmed rest, read as a list when bracketed. */
  lemma ParseLineKey(fm: map<string, string>, key: string, rest: string)
    requires ':' !in key
    ensures ParseLine(fm, key + ":" + rest) == fm[Trim(key) := ListValue(Trim(rest))]
  {
    var line := key + ":" + rest;
    var parts := Split(line, ":");
    assert Contains(line, ":") && |parts| >= 1 && parts[0] == key && Join(parts[1..], ":") == rest by {
      SplitKey(key, ":", rest);
    }
    assert ParseLine(fm, line) == fm[Trim(parts[0]) := ListValue(Trim(Join(parts[1..], ":")))] by {
      ParseLineOfParts(fm, line);
    }
  }

  /** A line with a `:` sets the trimmed first piece to the list value of the rest. */
  lemma ParseLineOfParts(fm: map<string, string>, line: string)
    requires Contains(line, ":")
    ensures var parts := Split(line, ":");
      ParseLine(fm, line) == fm[Trim(parts[0]) := ListValue(Trim(Join(parts[1..], ":")))]
  {
  }

  /** Splitting `key sep rest` on a one-character separator absent from the key. */
  lemma SplitKey(key: string, sep: string, rest: string)
    requires |sep| == 1 && sep[0] !in key
    ensures var parts := Split(key + sep + rest, sep);
      Contains(key + sep + rest, sep) && |parts| >= 1 && parts[0] == key && Join(parts[1..], sep) == rest
  {
    var line := key + sep + rest;
    assert Contains(line, sep) by {
      assert line[|key|..|key| + 1] == sep;
      assert OccursAt(line, sep, |key|);
    }
    var parts := Split(line, sep);
    assert parts == [key] + Split(rest, sep) by {
      CleanSingle(key, sep[0]);
      assert [sep[0]] == sep;
      SplitCons(key, sep, rest);
    }
    assert Join(parts[1..], sep) == rest by {
      assert parts[1..] == Split(rest, sep);
      JoinSplit(rest, sep);
    }
  }

  /** A key the serialiser writes: no `:`, no line break, no white space at its edges. */
  predicate PlainKey(key: string) {
    ':' !in key && '\n' !in key && Trimmed(key)
  }

  lemma KeysPlain()
    ensures PlainKey("title") && PlainKey("description") && PlainKey("date") && PlainKey("category")
    ensures PlainKey("tags")
  {
  }

  lemma ScalarLineOneLine(key: string, v: string)
    requires '\n' !in key && '\n' !in v
    ensures '\n' !in ScalarLine(key, v)
  {
  }

  lemma ParseScalarLine(fm: map<string, string>, key: string, v: string)
    requires PlainKey(key)
    ensures ParseLine(fm, ScalarLine(key, v)) == fm[key := Quote(v)]
  {
    assert Trim(" " + Quote(v)) == Quote(v) by {
      TrimAfterSpaces(" ", Quote(v));
    }
    assert ListValue(Quote(v)) == Quote(v) by {
      ListValuePlain(Quote(v));
    }
    TrimFixed(key);
    ParseLineKey(fm, key, " " + Quote(v));
  }

  /** The tags line's value reads back as the tags joined by ", ". */
  lemma TagsValue(ts: seq<string>)
    requires forall k :: 0 <= k < |ts| ==> '"' !in ts[k] && ',' !in ts[k]
    ensures ListValue(Trim(" " + ("[" + Join(QuoteAll(ts), ", ") + "]"))) == Join(ts, ", ")
  {
    var tg := Join(QuoteAll(ts), ", ");
    assert Trim(" " + ("[" + tg + "]")) == "[" + tg + "]" by {
      TrimBracketed(tg);
    }
    assert ListValue("[" + tg + "]") == Join(CleanItems(Split(tg, ",")), ", ") by {
      ListValueBracket(tg);
    }
    TagsReadBack(ts);
  }

  /** The space after `tags:` is trimmed away; the brackets stay. */
  lemma TrimBracketed(inner: string)
    ensures Trim(" " + ("[" + inner + "]")) == "[" + inner + "]"
  {
    var b := "[" + inner + "]";
    assert b[0] == '[' && b[|b| - 1] == ']';
    assert AllSpace(" ");
    TrimAfterSpaces(" ", b);
  }

  lemma ParseLineKeyValue(fm: map<string, string>, key: string, rest: string, value: string)
    requires ':' !in key && Trim(key) == key && ListValue(Trim(rest)) == value
    ensures ParseLine(fm, key + ":" + rest) == fm[key := value]
  {
    ParseLineKey(fm, key, rest);
  }

  /** The loader's list reading undoes the serialiser's quoting and joining. */
  lemma TagsReadBack(ts: seq<string>)
    requires forall k :: 0 <= k < |ts| ==> '"' !in ts[k] && ',' !in ts[k]
    ensures Join(CleanItems(Split(Join(QuoteAll(ts), ", "), ",")), ", ") == Join(ts, ", ")
  {
    if ts == [] {
      assert QuoteAll(ts) == [];
      EmptyListReadBack();
    } else {
      ListReadBack(Join(QuoteAll(ts), ", "), ts);
    }
  }

  lemma ListReadBack(rendered: string, ts: seq<string>)
    requires ts != [] && rendered == Join(QuoteAll(ts), ", ")
    requires forall k :: 0 <= k < |ts| ==> '"' !in ts[k] && ',' !in ts[k]
    ensures CleanItems(Split(rendered, ",")) == ts
  {
    assert Split(rendered, ",") == Items("", ts) by {
      assert "" + rendered == rendered;
      SplitRendered("", ts);
    }
    CleanItemsOfItems(ts);
  }

  /** An empty list `[]` reads back as the empty string. */
  lemma EmptyListReadBack()
    ensures Join(CleanItems(Split("", ",")), ", ") == ""
  {
    assert Split("", ",") == [""];
    assert CleanItems([""]) == [RemoveChar(Trim(""), '"')];
  }

  /** Trimming each piece and deleting its quotes leaves the tags. */
  lemma CleanItemsOfItems(ts: seq<string>)
    requires forall k :: 0 <= k < |ts| ==> '"' !in ts[k]
    ensures CleanItems(Items("", ts)) == ts
  {
    var items := Items("", ts);
    var cleaned := CleanItems(items);
    forall k | 0 <= k < |ts| ensures cleaned[k] == ts[k] {
      CleanItem(if k == 0 then "" else " ", ts[k]);
    }
  }

  lemma CleanItem(pre: string, t: string)
    requires AllSpace(pre) && '"' !in t
    ensures RemoveChar(Trim(pre + Quote(t)), '"') == t
  {
    TrimAfterSpaces(pre, Quote(t));
    UnquoteQuoted(t);
  }

  lemma UnquoteQuoted(t: string)
    requires '"' !in t
    ensures RemoveChar(Quote(t), '"') == t
  {
    RemoveCharConcat("\"" + t, "\"", '"');
    RemoveCharConcat("\"", t, '"');
    RemoveCharAbsent(t, '"');
  }

  /** The comma pieces of a rendered list: the first quoted tag behind `pre`,
      every later one behind the space that followed its comma. */
  function Items(pre: string, ts: seq<string>): (r: seq<string>)
    ensures |r| == |ts|
  {
    seq(|ts|, k requires 0 <= k < |ts| => (if k == 0 then pre else " ") + Quote(ts[k]))
  }

  lemma {:induction false} SplitRendered(pre: string, ts: seq<string>)
    requires ts != [] && ',' !in pre
    requires forall k :: 0 <= k < |ts| ==> ',' !in ts[k]
    ensures Split(pre + Join(QuoteAll(ts), ", "), ",") == Items(pre, ts)
    decreases |ts|
  {
    var q := QuoteAll(ts);
    if |ts| == 1 {
      CleanSingle(pre + Quote(ts[0]), ',');
      SplitNone(pre + Quote(ts[0]), ",");
    } else {
      SplitRenderedCons(pre, ts);
      SplitRendered(" ", ts[1..]);
      ItemsCons(pre, ts);
    }
  }

  /** The first comma of a rendered list ends the first item. */
  lemma SplitRenderedCons(pre: string, ts: seq<string>)
    requires |ts| >= 2 && ',' !in pre && ',' !in ts[0]
    ensures Split(pre + Join(QuoteAll(ts), ", "), ",")
         == [pre + Quote(ts[0])] + Split(" " + Join(QuoteAll(ts[1..]), ", "), ",")
  {
    var q := QuoteAll(ts);
    var head := pre + Quote(ts[0]);
    var tail := Join(q[1..], ", ");
    assert q[1..] == QuoteAll(ts[1..]);
    assert pre + Join(q, ", ") == head + "," + (" " + tail) by {
      assert Join(q, ", ") == Quote(ts[0]) + ", " + tail;
      assert ", " == "," + " ";
    }
    CleanSingle(head, ',');
    SplitCons(head, ",", " " + tail);
  }

  lemma ItemsCons(pre: string, ts: seq<string>)
    requires |ts| >= 2
    ensures Items(pre, ts) == [pre + Quote(ts[0])] + Items(" ", ts[1..])
  {
  }

  /** The front-matter fold over the seven lines of the block. */
  lemma FoldSevenLines(l1: string, l2: string, l3: string, l4: string, l5: string,
                       m1: map<string, string>, m2: map<string, string>, m3: map<string, string>,
                       m4: map<string, string>, m5: map<string, string>)
    requires ParseLine(map[], l1) == m1 && ParseLine(m1, l2) == m2 && ParseLine(m2, l3) == m3
    requires ParseLine(m3, l4) == m4 && ParseLine(m4, l5) == m5
    ensures FoldLines(map[], ["", l1, l2, l3, l4, l5, ""]) == m5
  {
    var lines := ["", l1, l2, l3, l4, l5, ""];
    assert !Contains("", ":");
    assert FoldLines(map[], lines) == FoldLines(map[], lines[1..]);
    assert lines[1..][1..] == lines[2..];
    assert FoldLines(map[], lines[1..]) == FoldLines(m1, lines[2..]);
    assert lines[2..][1..] == lines[3..];
    assert FoldLines(m1, lines[2..]) == FoldLines(m2, lines[3..]);
    assert lines[3..][1..] == lines[4..];
    assert FoldLines(m2, lines[3..]) == FoldLines(m3, lines[4..]);
    assert lines[4..][1..] == lines[5..];
    assert FoldLines(m3, lines[4..]) == FoldLines(m4, lines[5..]);
    assert lines[5..][1..] == lines[6..];
    assert FoldLines(m4, lines[5..]) == FoldLines(m5, lines[6..]);
    assert lines[6..][1..] == [];
    assert FoldLines(m5, lines[6..]) == FoldLines(m5, []);
  }
}
