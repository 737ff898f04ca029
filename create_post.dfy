/** The front-matter serialiser of the browser editor (`PostCreator`). */
module PostCreator {
  import opened Strings

  /** The form fields `generateFrontMatter` and `createMarkdownFile` read. */
  datatype PostData = PostData(
    title: string,
    description: string,
    category: string,
    tags: string,
    content: string)

  /** The literal text around the placeholders of `frontMatterTemplate`. */
  const OpenTitle: string := "---\ntitle: \""
  const OpenDescription: string := "\"\ndescription: \""
  const OpenDate: string := "\"\ndate: \""
  const OpenCategory: string := "\"\ncategory: \""
  const OpenTags: string := "\"\ntags: ["
  const CloseFrontMatter: string := "]\n---\n\n"

  /** The template whose placeholders are filled in one `replace` at a time:
      `---\ntitle: "{title}"\ndescription: "{description}"\ndate: "{date}"\ncategory: "{category}"\ntags: [{tags}]\n---\n\n`. */
  const FrontMatterTemplate: string :=
    OpenTitle + "{title}" + OpenDescription + "{description}" + OpenDate + "{date}"
      + OpenCategory + "{category}" + OpenTags + "{tags}" + CloseFrontMatter

  /** `timestamp.split('T')[0]`, applied to the ISO 8601 text of the current time. */
  function DateOf(isoTimestamp: string): string {
    Split(isoTimestamp, "T")[0]
  }

  /** The date part of `YYYY-MM-DDTHH:MM:SS.sssZ` is the text before the `T`. */
  lemma DateOfIso(day: string, time: string)
    requires 'T' !in day
    ensures DateOf(day + "T" + time) == day
  {
    CleanSingle(day, 'T');
    SplitCons(day, "T", time);
  }

  /** The trimmed, non-blank comma segments, in order. */
  function TrimmedTags(segments: seq<string>): (r: seq<string>)
    ensures |r| <= |segments|
    ensures forall k :: 0 <= k < |r| ==> r[k] != "" && Trimmed(r[k])
  {
    if segments == [] then []
    else
      var t := Trim(segments[0]);
      var rest := TrimmedTags(segments[1..]);
      if t == "" then rest else [t] + rest
  }

  /** `tags.split(',').map(tag => tag.trim()).filter(tag => tag)` */
  function TagList(tags: string): (r: seq<string>)
    ensures forall k :: 0 <= k < |r| ==> r[k] != "" && Trimmed(r[k]) && ',' !in r[k]
  {
    var segments := Split(tags, ",");
    SegmentsHaveNoComma(tags);
    TrimmedTagsNoComma(segments);
    TrimmedTags(segments)
  }

  /** Every tag is a piece of the tag string as the user typed it. */
  lemma TagListInfix(tags: string)
    ensures forall k :: 0 <= k < |TagList(tags)| ==> Contains(tags, TagList(tags)[k])
  {
    SplitSegmentsInfix(tags, ",");
    TrimmedTagsInfix(Split(tags, ","), tags);
  }

  lemma {:induction false} SegmentsHaveNoComma(s: string)
    ensures forall k :: 0 <= k < |Split(s, ",")| ==> ',' !in Split(s, ",")[k]
    decreases |s|
  {
    var i := IndexOf(s, ",");
    if i < 0 {
      if ',' in s {
        var j :| 0 <= j < |s| && s[j] == ',';
        assert s[j..j + 1] == ",";
        assert OccursAt(s, ",", j);
      }
    } else {
      SegmentsHaveNoComma(s[i + 1..]);
      forall j | 0 <= j < i ensures s[j] != ',' {
        assert !OccursAt(s, ",", j);
        assert s[j..j + 1] == [s[j]];
      }
    }
  }

  lemma {:induction false} TrimmedTagsNoComma(segments: seq<string>)
    requires forall k :: 0 <= k < |segments| ==> ',' !in segments[k]
    ensures forall k :: 0 <= k < |TrimmedTags(segments)| ==> ',' !in TrimmedTags(segments)[k]
  {
    if segments != [] {
      TrimmedTagsNoComma(segments[1..]);
      TrimKeepsChars(segments[0]);
    }
  }

  lemma {:induction false} TrimmedTagsInfix(segments: seq<string>, s: string)
    requires forall k :: 0 <= k < |segments| ==> Contains(s, segments[k])
    ensures forall k :: 0 <= k < |TrimmedTags(segments)| ==> Contains(s, TrimmedTags(segments)[k])
  {
    if segments != [] {
      var t := Trim(segments[0]);
      var rest := TrimmedTags(segments[1..]);
      assert forall k :: 0 <= k < |rest| ==> Contains(s, rest[k]) by {
        assert forall k :: 0 <= k < |segments[1..]| ==> segments[1..][k] == segments[k + 1];
        TrimmedTagsInfix(segments[1..], s);
      }
      assert Contains(s, t) by {
        TrimInfix(segments[0]);
        ContainsTrans(s, segments[0], t);
      }
      assert TrimmedTags(segments) == if t == "" then rest else [t] + rest;
      AllInfixCons(s, t, rest);
    }
  }

  lemma AllInfixCons(s: string, t: string, rest: seq<string>)
    requires Contains(s, t)
    requires forall k :: 0 <= k < |rest| ==> Contains(s, rest[k])
    ensures forall k :: 0 <= k < |[t] + rest| ==> Contains(s, ([t] + rest)[k])
  {
    forall k | 0 <= k < |[t] + rest| ensures Contains(s, ([t] + rest)[k]) {
      if k > 0 {
        assert ([t] + rest)[k] == rest[k - 1];
      }
    }
  }

  lemma TrimKeepsChars(s: string)
    ensures forall c :: c in Trim(s) ==> c in s
  {
    var a := TrimStart(s);
    assert forall c :: c in a ==> c in s;
    assert forall c :: c in TrimEnd(a) ==> c in a;
  }

  /** `"${tag}"` */
  function Quote(s: string): string {
    "\"" + s + "\""
  }

  function QuoteAll(ts: seq<string>): (r: seq<string>)
    ensures |r| == |ts| && forall k :: 0 <= k < |ts| ==> r[k] == Quote(ts[k])
  {
    if ts == [] then [] else [Quote(ts[0])] + QuoteAll(ts[1..])
  }

  /** The tag list as it stands between the brackets: every tag quoted, joined by ", ". */
  function RenderTags(tags: string): string {
    Join(QuoteAll(TagList(tags)), ", ")
  }

  /** `generateFrontMatter(postData)`: the five placeholders replaced in the
      order title, description, date, category, tags, each at its first occurrence. */
  function GenerateFrontMatter(d: PostData, isoTimestamp: string): string {
    var t1 := ReplaceFirst(FrontMatterTemplate, "{title}", d.title);
    var t2 := ReplaceFirst(t1, "{description}", d.description);
    var t3 := ReplaceFirst(t2, "{date}", DateOf(isoTimestamp));
    var t4 := ReplaceFirst(t3, "{category}", d.category);
    ReplaceFirst(t4, "{tags}", RenderTags(d.tags))
  }

  /** `createMarkdownFile(postData)`: the front matter, a newline, then the content. */
  function CreateMarkdownFile(d: PostData, isoTimestamp: string): string {
    GenerateFrontMatter(d, isoTimestamp) + "\n" + d.content
  }

  /** The front matter with its fields in place: the four scalars inside
      double quotes, the tags inside brackets, closed by `---` and a blank line. */
  function FrontMatterText(title: string, description: string, date: string, category: string, tags: string): string {
    OpenTitle + title + OpenDescription + description + OpenDate + date
      + OpenCategory + category + OpenTags + tags + CloseFrontMatter
  }

  /** With no `{` in the scalar fields (no placeholder injected into a later
      replace), each placeholder is replaced exactly where the template has it. */
  lemma FrontMatterLayout(d: PostData, isoTimestamp: string)
    requires '{' !in d.title && '{' !in d.description && '{' !in DateOf(isoTimestamp) && '{' !in d.category
    ensures GenerateFrontMatter(d, isoTimestamp)
         == FrontMatterText(d.title, d.description, DateOf(isoTimestamp), d.category, RenderTags(d.tags))
  {
    assert '{' !in OpenTitle && '{' !in OpenDescription && '{' !in OpenDate;
    assert '{' !in OpenCategory && '{' !in OpenTags;
    FillInOrder(OpenTitle, OpenDescription, OpenDate, OpenCategory, OpenTags, CloseFrontMatter,
      "{title}", "{description}", "{date}", "{category}", "{tags}",
      d.title, d.description, DateOf(isoTimestamp), d.category, RenderTags(d.tags));
  }

  /** Five first-occurrence replacements over text whose `{` characters are
      exactly the placeholders' first characters. */
  lemma FillInOrder(l0: string, l1: string, l2: string, l3: string, l4: string, l5: string,
                    p1: string, p2: string, p3: string, p4: string, p5: string,
                    v1: string, v2: string, v3: string, v4: string, v5: string)
    requires '{' !in l0 && '{' !in l1 && '{' !in l2 && '{' !in l3 && '{' !in l4
    requires p1 != [] && p2 != [] && p3 != [] && p4 != [] && p5 != []
    requires p1[0] == '{' && p2[0] == '{' && p3[0] == '{' && p4[0] == '{' && p5[0] == '{'
    requires '{' !in v1 && '{' !in v2 && '{' !in v3 && '{' !in v4
    ensures var t0 := l0 + p1 + l1 + p2 + l2 + p3 + l3 + p4 + l4 + p5 + l5;
      ReplaceFirst(ReplaceFirst(ReplaceFirst(ReplaceFirst(ReplaceFirst(t0, p1, v1), p2, v2), p3, v3), p4, v4), p5, v5)
      == l0 + v1 + l1 + v2 + l2 + v3 + l3 + v4 + l4 + v5 + l5
  {
    var b4 := l4 + p5 + l5;
    var b3 := l3 + p4 + b4;
    var b2 := l2 + p3 + b3;
    var b1 := l1 + p2 + b2;
    TemplateRegroup(l0, l1, l2, l3, l4, l5, p1, p2, p3, p4, p5);
    ReplaceStep(l0, p1, v1, l1, p2, b2);
    ReplaceStep(l0 + v1 + l1, p2, v2, l2, p3, b3);
    ReplaceStep(l0 + v1 + l1 + v2 + l2, p3, v3, l3, p4, b4);
    ReplaceStep(l0 + v1 + l1 + v2 + l2 + v3 + l3, p4, v4, l4, p5, l5);
    ReplaceFirstAt(l0 + v1 + l1 + v2 + l2 + v3 + l3 + v4 + l4, p5, l5, v5);
  }

  /** One replacement of the chain: the next placeholder and what follows it
      are left in place. */
  lemma ReplaceStep(a: string, p: string, v: string, l: string, next: string, b: string)
    requires p != [] && p[0] !in a
    ensures ReplaceFirst(a + p + (l + next + b), p, v) == (a + v + l) + next + b
  {
    ReplaceFirstAt(a, p, l + next + b, v);
    Regroup(a + v, l, next, b);
  }

  lemma Regroup(x: string, l: string, p: string, b: string)
    ensures x + (l + p + b) == (x + l) + p + b
  {
  }

  lemma TemplateRegroup(l0: string, l1: string, l2: string, l3: string, l4: string, l5: string,
                        p1: string, p2: string, p3: string, p4: string, p5: string)
    ensures l0 + p1 + l1 + p2 + l2 + p3 + l3 + p4 + l4 + p5 + l5
         == l0 + p1 + (l1 + p2 + (l2 + p3 + (l3 + p4 + (l4 + p5 + l5))))
  {
  }
}
