/** `MarpStyler`: the theme templates, the layouts that split slide content
    on `||`, and the slide templates. */
module MarpStyles {
  import opened Strings

  /** The separator the layouts split on. */
  const Bar: string := "||"

  // ----- theme templates -----

  /** A theme template: a comment line, then Marp directives between `---` lines. */
  datatype ThemeTemplate = ThemeTemplate(comment: string, directives: string)

  /** The template's text, which closes its directives with `---`. */
  function TemplateText(t: ThemeTemplate): (r: string)
    ensures StartsWith(r, t.comment + "\n---\n") && EndsWith(r, "\n---")
    ensures |r| == |t.comment| + |t.directives| + 9
  {
    var r := t.comment + "\n---\n" + t.directives + "\n---";
    assert r[..|t.comment| + 5] == t.comment + "\n---\n";
    assert r[|r| - 4..] == "\n---";
    r
  }

  const DefaultTheme: ThemeTemplate := ThemeTemplate("/* Default theme */",
    "marp: true\n" +
    "theme: default\n" +
    "paginate: true\n" +
    "footer: 'Your Footer Here'")

  const GaiaTheme: ThemeTemplate := ThemeTemplate("/* Gaia theme */",
    "marp: true\n" +
    "theme: gaia\n" +
    "paginate: true\n" +
    "class: lead\n" +
    "footer: 'Your Footer Here'")

  const CustomTheme: ThemeTemplate := ThemeTemplate("/* Custom theme */",
    "marp: true\n" +
    "theme: default\n" +
    "paginate: true\n" +
    "style: |\n" +
    "    section {\n" +
    "        background: #ffffff;\n" +
    "        color: #333333;\n" +
    "    }\n" +
    "    h1 {\n" +
    "        color: #2a9d8f;\n" +
    "        font-size: 2.5em;\n" +
    "    }\n" +
    "    h2 {\n" +
    "        color: #264653;\n" +
    "    }\n" +
    "    strong {\n" +
    "        color: #e76f51;\n" +
    "    }\n" +
    "    code {\n" +
    "        background: #f4f4f4;\n" +
    "        padding: 0.2em 0.4em;\n" +
    "    }\n" +
    "footer: 'Your Footer Here'")

  /** `this.themeTemplates`, set by the constructor and never changed. */
  const Themes: map<string, ThemeTemplate> := map["default" := DefaultTheme, "gaia" := GaiaTheme, "custom" := CustomTheme]

  /** `this.themeTemplates[theme] || this.themeTemplates.default`: a stored
      template is never empty, so only an unknown name falls back. */
  function GetThemeTemplate(theme: string): (r: string)
    ensures theme == "default" || theme == "gaia" || theme == "custom" ==> r == TemplateText(Themes[theme])
    ensures theme != "default" && theme != "gaia" && theme != "custom" ==> r == TemplateText(DefaultTheme)
    ensures EndsWith(r, "\n---")
  {
    var stored := if theme in Themes then TemplateText(Themes[theme]) else "";
    if stored != "" then stored else TemplateText(Themes["default"])
  }

  // ----- the layouts -----

  /** The pieces a split on `||` gives back: every piece but the last ends
      outside `|` and none holds `||`. */
  predicate Pieces(parts: seq<string>) {
    && |parts| >= 1
    && (forall k :: 0 <= k < |parts| - 1 ==> Clean(parts[k], Bar))
    && !Contains(parts[|parts| - 1], Bar)
  }

  /** The two columns of the split layout. */
  function SplitPanels(left: string, right: string): string {
    "\n<div class=\"split\">\n<div class=\"left\">\n\n" + left
    + "\n\n</div>\n<div class=\"right\">\n\n" + right + "\n\n</div>\n</div>"
  }

  /** `applySplitLayout`: the first piece on the left, the second (or `''`
      when there is none) on the right; `split('||')[0]` always exists and
      `|| ''` leaves it as it is. */
  function SplitLayout(content: string): string {
    var parts := Split(content, Bar);
    SplitPanels(parts[0], if |parts| > 1 then parts[1] else "")
  }

  /** Content of two or more pieces: the first two are the columns, the rest is dropped. */
  lemma SplitLayoutOf(parts: seq<string>)
    requires Pieces(parts) && |parts| >= 2
    ensures SplitLayout(Join(parts, Bar)) == SplitPanels(parts[0], parts[1])
  {
    SplitJoin(parts, Bar);
  }

  /** Content without `||` fills the left column only. */
  lemma SplitLayoutSingle(content: string)
    requires !Contains(content, Bar)
    ensures SplitLayout(content) == SplitPanels(content, "")
  {
    SplitNone(content, Bar);
  }

  /** One `grid-item`, holding the trimmed piece. */
  function GridItem(item: string): string {
    "<div class=\"grid-item\">\n\n" + Trim(item) + "\n\n</div>\n"
  }

  /** The item of each piece, in order. */
  function GridItems(items: seq<string>): (r: seq<string>)
    ensures |r| == |items| && forall k :: 0 <= k < |items| ==> r[k] == GridItem(items[k])
  {
    seq(|items|, k requires 0 <= k < |items| => GridItem(items[k]))
  }

  /** The strings one after another. */
  function Concat(ss: seq<string>): string
    decreases |ss|
  {
    if ss == [] then "" else Concat(ss[..|ss| - 1]) + ss[|ss| - 1]
  }

  /** Concatenating two lists is concatenating each. */
  lemma {:induction false} ConcatAppend(xs: seq<string>, ys: seq<string>)
    ensures Concat(xs + ys) == Concat(xs) + Concat(ys)
    decreases |ys|
  {
    if ys == [] {
      assert xs + ys == xs;
    } else {
      var init, last := ys[..|ys| - 1], ys[|ys| - 1];
      var all := xs + ys;
      assert all[..|all| - 1] == xs + init && all[|all| - 1] == last;
      ConcatAppend(xs, init);
      calc {
        Concat(all);
        Concat(xs + init) + last;
        (Concat(xs) + Concat(init)) + last;
        Concat(xs) + (Concat(init) + last);
      }
    }
  }

  /** The grid's opening tag. */
  const GridOpen: string := "<div class=\"grid\">\n"

  /** The grid for a list of pieces. */
  function GridHtml(items: seq<string>): string {
    GridOpen + Concat(GridItems(items)) + "</div>"
  }

  lemma Assoc(a: string, b: string, c: string)
    ensures (a + b) + c == a + (b + c)
  {
  }

  /** `applyGridLayout`: the `forEach` that appends one item per piece. */
  method GridLayout(content: string) returns (r: string)
    ensures r == GridHtml(Split(content, Bar))
  {
    var items := Split(content, Bar);
    var grid := GridOpen;
    var i := 0;
    while i < |items|
      invariant 0 <= i <= |items|
      invariant grid == GridOpen + Concat(GridItems(items[..i]))
    {
      var done := GridItems(items[..i + 1]);
      assert done[..i] == GridItems(items[..i]);
      var item := GridItem(items[i]);
      assert Concat(done) == Concat(GridItems(items[..i])) + item;
      Assoc(GridOpen, Concat(GridItems(items[..i])), item);
      grid := grid + item;
      i := i + 1;
    }
    assert items[..|items|] == items;
    r := grid + "</div>";
  }

  /** The string at `k` sits between the ones before and after it. */
  lemma {:induction false} ConcatAt(ss: seq<string>, k: int)
    requires 0 <= k < |ss|
    ensures Concat(ss) == Concat(ss[..k]) + ss[k] + Concat(ss[k + 1..])
  {
    var pre, post := ss[..k] + [ss[k]], ss[k + 1..];
    calc {
      Concat(ss);
      { assert pre + post == ss; }
      Concat(pre + post);
      { ConcatAppend(pre, post); }
      Concat(pre) + Concat(post);
      { assert pre[..|pre| - 1] == ss[..k] && pre[|pre| - 1] == ss[k]; }
      (Concat(ss[..k]) + ss[k]) + Concat(post);
    }
  }

  /** Piece `k` gets its own item, after the items of the pieces before it
      and before those after it. */
  lemma {:induction false} GridItemAt(items: seq<string>, k: int)
    requires 0 <= k < |items|
    ensures Concat(GridItems(items)) == Concat(GridItems(items[..k])) + GridItem(items[k]) + Concat(GridItems(items[k + 1..]))
  {
    var all := GridItems(items);
    ConcatAt(all, k);
    GridItemsTake(items, k);
    GridItemsDrop(items, k + 1);
  }

  /** The items of a prefix are the prefix of the items. */
  lemma {:induction false} GridItemsTake(items: seq<string>, n: int)
    requires 0 <= n <= |items|
    ensures GridItems(items)[..n] == GridItems(items[..n])
  {
    var a, b := GridItems(items)[..n], GridItems(items[..n]);
    forall j | 0 <= j < n ensures a[j] == b[j] {
      assert a[j] == GridItem(items[j]);
      assert b[j] == GridItem(items[..n][j]);
    }
  }

  /** The items of a suffix are the suffix of the items. */
  lemma {:induction false} GridItemsDrop(items: seq<string>, n: int)
    requires 0 <= n <= |items|
    ensures GridItems(items)[n..] == GridItems(items[n..])
  {
    var a, b := GridItems(items)[n..], GridItems(items[n..]);
    forall j | 0 <= j < |items| - n ensures a[j] == b[j] {
      assert a[j] == GridItem(items[n + j]);
      assert b[j] == GridItem(items[n..][j]);
    }
  }

  /** The grid of content made of pieces has one item per piece, in order. */
  lemma GridLayoutOf(parts: seq<string>)
    requires Pieces(parts)
    ensures GridHtml(Split(Join(parts, Bar), Bar)) == GridHtml(parts)
  {
    SplitJoin(parts, Bar);
  }

  /** Content without `||` gives a grid of exactly one item. */
  lemma GridLayoutSingle(content: string)
    requires !Contains(content, Bar)
    ensures GridHtml(Split(content, Bar)) == GridOpen + GridItem(content) + "</div>"
  {
    SplitNone(content, Bar);
    var one := GridItems([content]);
    assert one == [GridItem(content)];
    assert one[..0] == [];
    assert Concat(one) == GridItem(content);
  }

  /** The before-and-after columns of the comparison layout. */
  function ComparisonPanels(left: string, right: string): string {
    "\n<div class=\"comparison\">\n<div class=\"compare-left\">\n\n### Before\n" + left
    + "\n\n</div>\n<div class=\"compare-right\">\n\n### After\n" + right + "\n\n</div>\n</div>"
  }

  /** `${right}` of a missing second piece. */
  const Undefined: string := "undefined"

  /** `applyComparisonLayout`: `const [left, right] = content.split('||').map(s => s.trim())`. */
  function ComparisonLayout(content: string): string {
    var parts := Split(content, Bar);
    ComparisonPanels(Trim(parts[0]), if |parts| > 1 then Trim(parts[1]) else Undefined)
  }

  /** Content of two or more pieces: the first two, trimmed; the rest is dropped. */
  lemma ComparisonLayoutOf(parts: seq<string>)
    requires Pieces(parts) && |parts| >= 2
    ensures ComparisonLayout(Join(parts, Bar)) == ComparisonPanels(Trim(parts[0]), Trim(parts[1]))
  {
    SplitJoin(parts, Bar);
  }

  /** Content without `||`: the After column reads `undefined`. */
  lemma ComparisonLayoutSingle(content: string)
    requires !Contains(content, Bar)
    ensures ComparisonLayout(content) == ComparisonPanels(Trim(content), Undefined)
  {
    SplitNone(content, Bar);
  }

  /** `applyLayout`: the named layout, or the content as it is. */
  method ApplyLayout(content: string, layout: string) returns (r: string)
    ensures layout == "split" ==> r == SplitLayout(content)
    ensures layout == "grid" ==> r == GridHtml(Split(content, Bar))
    ensures layout == "comparison" ==> r == ComparisonLayout(content)
    ensures layout != "split" && layout != "grid" && layout != "comparison" ==> r == content
  {
    if layout == "split" {
      r := SplitLayout(content);
    } else if layout == "grid" {
      r := GridLayout(content);
    } else if layout == "comparison" {
      r := ComparisonLayout(content);
    } else {
      r := content;
    }
  }

  // ----- slide templates -----

  /** A slide's text, closed by a blank line and the `---` slide separator. */
  function Slide(body: string): (r: string)
    ensures EndsWith(r, "\n\n---") && StartsWith(r, body)
  {
    var r := body + "\n\n---";
    assert r[|r| - 5..] == "\n\n---";
    assert r[..|body|] == body;
    r
  }

  /** The slides of `generateSlideTemplates()`, by name, before their separator. */
  const SlideBodies: map<string, string> := map[
    "title" := "# Title Slide\n## Subtitle\n### Author Name",
    "bulletPoints" := "# Section Title\n\n- First point\n- Second point\n- Third point\n"
      + "  - Sub-point A\n  - Sub-point B",
    "splitContent" := "# Split Layout\n\n<div class=\"split\">\n<div class=\"left\">\n\n"
      + "## Left Side\n- Content here\n\n</div>\n<div class=\"right\">\n\n"
      + "## Right Side\n- More content\n\n</div>\n</div>",
    "imageGallery" := "# Image Gallery\n\n![width:300px](image1.jpg) ![width:300px](image2.jpg)\n"
      + "![width:300px](image3.jpg) ![width:300px](image4.jpg)",
    "quote" := "# Quote Slide\n\n> \"Your quote here\"\n> \n> \U{00E2}\U{20AC}\U{201D} Author Name",
    "code" := "# Code Example\n\n```python\ndef example():\n    print(\"Hello World!\")\n```",
    "table" := "# Data Table\n\n| Header 1 | Header 2 | Header 3 |\n|----------|----------|----------|\n"
      + "| Cell 1   | Cell 2   | Cell 3   |\n| Cell 4   | Cell 5   | Cell 6   |"
  ]

  /** `generateSlideTemplates()`: every template is one slide followed by its separator. */
  function SlideTemplates(): (r: map<string, string>)
    ensures r.Keys == SlideBodies.Keys
    ensures forall name :: name in r ==> r[name] == Slide(SlideBodies[name]) && EndsWith(r[name], "\n\n---")
  {
    map name | name in SlideBodies :: Slide(SlideBodies[name])
  }
}
