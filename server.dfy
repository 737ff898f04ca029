/** The string building of the server's routes (`server/server.js`): the slug,
    file name, front-matter text and target directory of `/api/publish`, the
    order of the file write and the deploy hook, the directory of the content
    routes, and the excerpt of a listed file. */
module Server {
  import opened Strings
  import opened Optional
  import FileLoader
  import FileProcessor

  /** `req.body.metadata` of a publish request; `None` is a field left out. */
  datatype PublishMetadata = PublishMetadata(
    title: Option<string>,
    slug: Option<string>,
    description: Option<string>,
    category: Option<string>,
    tags: Option<string>,
    deployHook: Option<string>)

  /** A string field that JavaScript treats as true: present and not empty. */
  predicate Truthy(o: Option<string>) {
    o.Some? && o.value != ""
  }

  /** `x || ''` */
  function OrEmpty(o: Option<string>): (r: string)
    ensures Truthy(o) <==> r != ""
    ensures Truthy(o) ==> r == o.value
  {
    if Truthy(o) then o.value else ""
  }

  /** `${x}` in a template literal: a missing field prints as `undefined`. */
  function Interpolated(o: Option<string>): (r: string)
    ensures o.Some? ==> r == o.value
  {
    if o.Some? then o.value else "undefined"
  }

  /** `CONTENT_DIR/posts` and `CONTENT_DIR/presentations`. */
  datatype Directory = PostsDir | PresentationsDir

  // ----- /api/publish -----

  /** `metadata.slug || metadata.title.toLowerCase().replace(/[^a-z0-9]+/g, '-')`;
      `None` when that reads `toLowerCase` of a missing title and throws. */
  function PublishSlug(m: PublishMetadata): (r: Option<string>)
    ensures r.None? <==> !Truthy(m.slug) && m.title.None?
    ensures Truthy(m.slug) ==> r == m.slug
    ensures !Truthy(m.slug) && m.title.Some? ==> Collapsed(r.value) && |r.value| <= |m.title.value|
  {
    if Truthy(m.slug) then m.slug
    else if m.title.None? then None
    else
      CollapseRunsShorter(ToLower(m.title.value));
      Some(CollapseRuns(ToLower(m.title.value)))
  }

  /** Collapsing runs never lengthens a string. */
  lemma {:induction false} CollapseRunsShorter(s: string)
    ensures |CollapseRuns(s)| <= |s|
    decreases |s|
  {
    if s != [] {
      if IsSlugChar(s[0]) {
        CollapseRunsShorter(s[1..]);
      } else {
        CollapseRunsShorter(DropRun(s));
        assert |DropRun(s)| < |s|;
      }
    }
  }

  /** A run at the end of the title is not trimmed: the derived slug ends with
      `-` exactly when the lower-cased title ends outside `[a-z0-9]`. */
  lemma {:induction false} CollapseRunsLast(s: string)
    requires s != []
    ensures var r := CollapseRuns(s);
      r != [] && (r[|r| - 1] == '-' <==> !IsSlugChar(s[|s| - 1]))
    decreases |s|
  {
    if IsSlugChar(s[0]) {
      if |s| > 1 {
        CollapseRunsLast(s[1..]);
      }
    } else {
      var d := DropRun(s);
      assert CollapseRuns(s) == "-" + CollapseRuns(d);
      if d != [] {
        CollapseRunsLast(d);
        assert d[|d| - 1] == s[|s| - 1];
      } else {
        DropRunAll(s);
      }
    }
  }

  /** When the whole string is one run, its last character is outside `[a-z0-9]`. */
  lemma {:induction false} DropRunAll(s: string)
    requires s != [] && DropRun(s) == []
    ensures !IsSlugChar(s[|s| - 1])
    decreases |s|
  {
    if |s| > 1 {
      assert DropRun(s) == DropRun(s[1..]);
      DropRunAll(s[1..]);
    }
  }

  /** The derived publish slug keeps a trailing hyphen where the loader's and
      the watcher's `generateSlug` drop it: it is their rule without the edge strip. */
  lemma PublishSlugEdge(title: string)
    requires title != []
    ensures var m := PublishMetadata(Some(title), None, None, None, None, None);
      var s := PublishSlug(m).value;
      && (s[|s| - 1] == '-' <==> !IsSlugChar(LowerChar(title[|title| - 1])))
      && FileLoader.GenerateSlug(title) == FileLoader.StripEdgeHyphen(s)
  {
    var lower := ToLower(title);
    var s := CollapseRuns(lower);
    assert PublishSlug(PublishMetadata(Some(title), None, None, None, None, None)) == Some(s);
    CollapseRunsLast(lower);
    assert lower[|lower| - 1] == LowerChar(title[|title| - 1]);
  }

  /** `"Hello World!"` is published under the slug `hello-world-`, which the
      loader's rule would turn into `hello-world`. */
  lemma HelloWorldSlug()
    ensures PublishSlug(PublishMetadata(Some("Hello World!"), None, None, None, None, None)) == Some("hello-world-")
    ensures FileLoader.GenerateSlug("Hello World!") == "hello-world"
  {
    HelloWorldLower();
    HelloWorldRuns();
    var c := "hello-world-";
    assert c[0] != '-' && c[|c| - 1] == '-' && c[..|c| - 1] == "hello-world";
  }

  lemma HelloWorldLower()
    ensures ToLower("Hello World!") == "hello" + " " + "world" + "!"
  {
    var t := "hello" + " " + "world" + "!";
    assert |t| == 12;
    forall i | 0 <= i < 12 ensures ToLower("Hello World!")[i] == t[i] {
      assert t[i] == "hello world!"[i];
    }
  }

  lemma HelloWorldRuns()
    ensures CollapseRuns("hello" + " " + "world" + "!") == "hello-world-"
  {
    var a, b := "hello", "world";
    assert forall k :: 0 <= k < |a| ==> IsSlugChar(a[k]);
    assert forall k :: 0 <= k < |b| ==> IsSlugChar(b[k]);
    TwoWords(a, b);
    assert a + "-" + b + "-" == "hello-world-";
  }

  /** Two words of slug characters around a space, and a closing mark: the
      space and the mark each become one hyphen. */
  lemma TwoWords(a: string, b: string)
    requires b != []
    requires forall k :: 0 <= k < |a| ==> IsSlugChar(a[k])
    requires forall k :: 0 <= k < |b| ==> IsSlugChar(b[k])
    ensures CollapseRuns(a + " " + b + "!") == a + "-" + b + "-"
  {
    var tail := " " + (b + "!");
    assert CollapseRuns(a + tail) == a + ("-" + (b + "-")) by {
      assert CollapseRuns(tail) == "-" + (b + "-") by {
        assert CollapseRuns(b + "!") == b + "-" by {
          assert CollapseRuns("!") == "-" by {
            OneBreak('!', []);
            assert ['!'] + [] == "!";
          }
          SlugWord(b, "!");
        }
        OneBreak(' ', b + "!");
      }
      SlugWord(a, tail);
    }
    Regroup(a, " ", b, "!");
    Regroup(a, "-", b, "-");
  }

  lemma Regroup(a: string, x: string, b: string, y: string)
    ensures a + x + b + y == a + (x + (b + y))
  {
  }

  /** One character outside `[a-z0-9]` before a slug character becomes one hyphen. */
  lemma OneBreak(c: char, t: string)
    requires !IsSlugChar(c) && (t == [] || IsSlugChar(t[0]))
    ensures CollapseRuns([c] + t) == "-" + CollapseRuns(t)
  {
    var s := [c] + t;
    assert s[1..] == t;
    assert DropRun(s) == DropRun(t) == t;
  }

  /** A word of slug characters is copied as it is. */
  lemma {:induction false} SlugWord(w: string, rest: string)
    requires forall k :: 0 <= k < |w| ==> IsSlugChar(w[k])
    ensures CollapseRuns(w + rest) == w + CollapseRuns(rest)
    decreases |w|
  {
    if w != [] {
      var s := w + rest;
      assert s[0] == w[0] && s[1..] == w[1..] + rest;
      assert CollapseRuns(s) == [w[0]] + CollapseRuns(s[1..]);
      SlugWord(w[1..], rest);
      assert w == [w[0]] + w[1..];
    } else {
      assert w + rest == rest;
    }
  }

  /** `${date}-${slug}.md` */
  function PublishFilename(date: string, slug: string): (r: string)
    ensures EndsWith(r, ".md") && StartsWith(r, date + "-")
    ensures |r| == |date| + |slug| + 4
  {
    var r := date + "-" + slug + ".md";
    assert r[|r| - 3..] == ".md";
    assert r[..|date| + 1] == date + "-";
    r
  }

  /** A template line `key: value`. */
  function Line(key: string, value: string): string {
    key + ": " + value
  }

  /** The keys and values of the front matter, in the template's fixed order. */
  function FrontMatterPairs(kind: Option<string>, m: PublishMetadata, date: string): seq<(string, string)> {
    [ ("title", Interpolated(m.title)),
      ("date", date),
      ("description", OrEmpty(m.description)),
      ("category", OrEmpty(m.category)),
      ("tags", "[" + OrEmpty(m.tags) + "]"),
      ("type", Interpolated(kind)) ]
  }

  function LinesOf(pairs: seq<(string, string)>): (r: seq<string>)
    ensures |r| == |pairs| && forall k :: 0 <= k < |pairs| ==> r[k] == Line(pairs[k].0, pairs[k].1)
  {
    seq(|pairs|, k requires 0 <= k < |pairs| => Line(pairs[k].0, pairs[k].1))
  }

  /** The lines of the front matter. */
  function FrontMatterLines(kind: Option<string>, m: PublishMetadata, date: string): seq<string> {
    LinesOf(FrontMatterPairs(kind, m, date))
  }

  /** `frontMatterContent`: `---`, the lines, `---`, a blank line, the content. */
  function PublishedText(kind: Option<string>, content: Option<string>, m: PublishMetadata, date: string): string {
    "---\n" + Join(FrontMatterLines(kind, m, date), "\n") + "\n---\n\n" + Interpolated(content)
  }

  /** `type === 'presentation' ? PRESENTATIONS_DIR : POSTS_DIR` */
  function PublishDirectory(kind: Option<string>): (r: Directory)
    ensures r == PresentationsDir <==> kind == Some("presentation")
  {
    if kind == Some("presentation") then PresentationsDir else PostsDir
  }

  /** The file `fs.writeFile` is asked to write. */
  datatype WrittenFile = WrittenFile(dir: Directory, filename: string, text: string)

  /** The deploy-hook request: `POST metadata.deployHook` with `{ type, filename }`. */
  datatype HookCall = HookCall(url: string, kind: Option<string>, filename: string)

  /** Why the route answered 500. */
  datatype Failure = TitleMissing | WriteFailed | HookFailed

  datatype Response = Published(dir: Directory, filename: string) | Failed(reason: Failure)

  /** What one publish request does, in order. */
  datatype PublishOutcome = PublishOutcome(written: Option<WrittenFile>, hook: Option<HookCall>, response: Response)

  /** The `/api/publish` handler; `date` is the `YYYY-MM-DD` of the clock,
      `writeOk` whether `fs.writeFile` succeeds, `hookOk` the hook's `response.ok`. */
  function Publish(kind: Option<string>, content: Option<string>, m: PublishMetadata, date: string,
                   writeOk: bool, hookOk: bool): (r: PublishOutcome)
    ensures r.response.Published? <==> PublishSlug(m).Some? && writeOk && (!Truthy(m.deployHook) || hookOk)
    ensures r.written.Some? <==> PublishSlug(m).Some? && writeOk
    ensures r.written.Some? ==> (r.written.value ==
      WrittenFile(PublishDirectory(kind), PublishFilename(date, PublishSlug(m).value), PublishedText(kind, content, m, date)))
    ensures r.hook.Some? <==> r.written.Some? && Truthy(m.deployHook)
    ensures r.hook.Some? ==> r.hook.value == HookCall(m.deployHook.value, kind, r.written.value.filename)
    ensures r.response.Published? ==> r.response == Published(r.written.value.dir, r.written.value.filename)
    ensures r.response == Failed(HookFailed) ==> r.written.Some?
  {
    match PublishSlug(m)
    case None => PublishOutcome(None, None, Failed(TitleMissing))
    case Some(slug) =>
      var filename := PublishFilename(date, slug);
      var file := WrittenFile(PublishDirectory(kind), filename, PublishedText(kind, content, m, date));
      if !writeOk then PublishOutcome(None, None, Failed(WriteFailed))
      else if !Truthy(m.deployHook) then PublishOutcome(Some(file), None, Published(file.dir, filename))
      else
        var call := Some(HookCall(m.deployHook.value, kind, filename));
        if hookOk then PublishOutcome(Some(file), call, Published(file.dir, filename))
        else PublishOutcome(Some(file), call, Failed(HookFailed))
  }

  // ----- the published file read back by the watcher -----

  /** Every line break is followed by something other than `-`. */
  predicate NoDashAfterBreak(s: string) {
    forall i :: 0 <= i < |s| - 1 && s[i] == '\n' ==> s[i + 1] != '-'
  }

  /** Lines that hold no break and do not start with `-`, joined by breaks. */
  lemma {:induction false} JoinedLines(lines: seq<string>)
    requires forall k :: 0 <= k < |lines| ==> '\n' !in lines[k] && lines[k] != [] && lines[k][0] != '-'
    ensures NoDashAfterBreak(Join(lines, "\n"))
    ensures |lines| > 0 ==> Join(lines, "\n") != [] && Join(lines, "\n")[0] == lines[0][0]
    decreases |lines|
  {
    if |lines| > 1 {
      var x := lines[0];
      var tail := lines[1..];
      JoinedLines(tail);
      JoinCons(x, tail, "\n");
      assert lines == [x] + tail;
      var s := Join(lines, "\n");
      var t := Join(tail, "\n");
      assert s == x + "\n" + t;
      assert forall i :: 0 <= i < |x| ==> s[i] == x[i];
      forall i | |x| <= i < |s| - 1 && s[i] == '\n' ensures s[i + 1] != '-' {
        if i > |x| {
          assert s[i] == t[i - |x| - 1] && s[i + 1] == t[i - |x|];
        } else {
          assert s[i + 1] == t[0];
        }
      }
    }
  }

  lemma LineShape(key: string, value: string)
    requires key != [] && key[0] != '-' && '\n' !in key && '\n' !in value
    ensures '\n' !in Line(key, value) && Line(key, value) != [] && Line(key, value)[0] != '-'
  {
    assert Line(key, value)[0] == key[0];
  }

  /** Such a block is followed by its `\n---` with none earlier. */
  lemma ClosingFree(b: string)
    requires NoDashAfterBreak(b)
    ensures !Contains(b + "\n--", FileProcessor.Closing)
  {
    var t := b + "\n--";
    forall j | 0 <= j <= |t| - 4 ensures !OccursAt(t, FileProcessor.Closing, j) {
      if j + 1 < |b| {
        assert t[j] == b[j] && t[j + 1] == b[j + 1];
      } else {
        assert t[j + 1] == '\n';
      }
      assert t[j..j + 4][1] == t[j + 1];
    }
  }

  /** `key: value` with a literal key: the key and the trimmed value. */
  lemma KeyLine(parsed: map<string, string>, key: string, value: string)
    requires key != "" && ':' !in key && Trimmed(key)
    ensures FileProcessor.ParseField(parsed, Line(key, value)) == parsed[key := Trim(value)]
  {
    assert key + ": " + value == key + ":" + (" " + value);
    FileProcessor.FieldLine(parsed, key, " " + value);
    TrimFixed(key);
    TrimStartSpaces(" ", value);
  }

  /** The pairs set one after another, each value trimmed. */
  function SetAll(parsed: map<string, string>, pairs: seq<(string, string)>): map<string, string>
    decreases |pairs|
  {
    if pairs == [] then parsed else SetAll(parsed[pairs[0].0 := Trim(pairs[0].1)], pairs[1..])
  }

  /** A key the line parser reads back as it is. */
  predicate PlainKey(key: string) {
    key != "" && ':' !in key && Trimmed(key)
  }

  /** The `forEach` over `key: value` lines with plain keys sets each key in turn. */
  lemma {:induction false} FoldKeyLines(parsed: map<string, string>, pairs: seq<(string, string)>)
    requires forall k :: 0 <= k < |pairs| ==> PlainKey(pairs[k].0)
    ensures FileProcessor.FoldFields(parsed, LinesOf(pairs)) == SetAll(parsed, pairs)
    decreases |pairs|
  {
    if pairs != [] {
      var lines := LinesOf(pairs);
      var next := parsed[pairs[0].0 := Trim(pairs[0].1)];
      KeyLine(parsed, pairs[0].0, pairs[0].1);
      FoldHead(parsed, lines, next);
      assert lines[1..] == LinesOf(pairs[1..]);
      FoldKeyLines(next, pairs[1..]);
    }
  }

  /** A key no later pair sets keeps its value. */
  lemma {:induction false} SetAllKeeps(parsed: map<string, string>, pairs: seq<(string, string)>, key: string)
    requires key in parsed
    requires forall j :: 0 <= j < |pairs| ==> pairs[j].0 != key
    ensures key in SetAll(parsed, pairs) && SetAll(parsed, pairs)[key] == parsed[key]
    decreases |pairs|
  {
    if pairs != [] {
      SetAllKeeps(parsed[pairs[0].0 := Trim(pairs[0].1)], pairs[1..], key);
    }
  }

  /** The last pair that sets a key decides its value. */
  lemma {:induction false} SetAllLookup(parsed: map<string, string>, pairs: seq<(string, string)>, k: int)
    requires 0 <= k < |pairs|
    requires forall j :: k < j < |pairs| ==> pairs[j].0 != pairs[k].0
    ensures pairs[k].0 in SetAll(parsed, pairs) && SetAll(parsed, pairs)[pairs[k].0] == Trim(pairs[k].1)
    decreases |pairs|
  {
    var next := parsed[pairs[0].0 := Trim(pairs[0].1)];
    if k == 0 {
      SetAllKeeps(next, pairs[1..], pairs[0].0);
    } else {
      SetAllLookup(next, pairs[1..], k - 1);
    }
  }

  /** The keys of the pairs, in order. */
  function KeysOf(pairs: seq<(string, string)>): seq<string>
    decreases |pairs|
  {
    if pairs == [] then [] else [pairs[0].0] + KeysOf(pairs[1..])
  }

  lemma {:induction false} KeysOfIndex(pairs: seq<(string, string)>, key: string)
    requires key in KeysOf(pairs)
    ensures exists j :: 0 <= j < |pairs| && pairs[j].0 == key
    decreases |pairs|
  {
    if pairs[0].0 != key {
      KeysOfIndex(pairs[1..], key);
      var j :| 0 <= j < |pairs[1..]| && pairs[1..][j].0 == key;
      assert pairs[j + 1].0 == key;
    }
  }

  /** Only the keys of the pairs are added. */
  lemma {:induction false} SetAllKeys(parsed: map<string, string>, pairs: seq<(string, string)>, key: string)
    requires key in SetAll(parsed, pairs)
    ensures key in parsed || key in KeysOf(pairs)
    decreases |pairs|
  {
    if pairs != [] {
      SetAllKeys(parsed[pairs[0].0 := Trim(pairs[0].1)], pairs[1..], key);
    }
  }

  /** No two pairs set the same key. */
  predicate DistinctKeys(pairs: seq<(string, string)>) {
    forall i, j :: 0 <= i < j < |pairs| ==> pairs[i].0 != pairs[j].0
  }

  /** The template's keys are distinct and read back as they are. */
  lemma FrontMatterKeys(kind: Option<string>, m: PublishMetadata, date: string)
    ensures var pairs := FrontMatterPairs(kind, m, date);
      && DistinctKeys(pairs)
      && forall k :: 0 <= k < |pairs| ==> PlainKey(pairs[k].0) && pairs[k].0[0] != '-' && '\n' !in pairs[k].0
  {
    WordKey("title");
    WordKey("date");
    WordKey("description");
    WordKey("category");
    WordKey("tags");
    WordKey("type");
  }

  /** A key of lower-case letters is plain. */
  lemma WordKey(key: string)
    requires key != [] && forall k :: 0 <= k < |key| ==> 'a' <= key[k] <= 'z'
    ensures PlainKey(key) && key[0] != '-' && '\n' !in key
  {
  }

  lemma FoldHead(parsed: map<string, string>, lines: seq<string>, next: map<string, string>)
    requires lines != [] && FileProcessor.ParseField(parsed, lines[0]) == next
    ensures FileProcessor.FoldFields(parsed, lines) == FileProcessor.FoldFields(next, lines[1..])
  {
  }

  /** Any such template of `key: value` lines, between `---` lines: the
      watcher finds exactly its lines as the block, and every key is read back
      with its value trimmed, and no other key. */
  lemma TemplateRead(pairs: seq<(string, string)>, tail: string)
    requires |pairs| > 0 && DistinctKeys(pairs)
    requires forall k :: 0 <= k < |pairs| ==> PlainKey(pairs[k].0) && pairs[k].0[0] != '-' && '\n' !in pairs[k].0
    requires forall k :: 0 <= k < |pairs| ==> '\n' !in pairs[k].1
    ensures var block := Join(LinesOf(pairs), "\n");
      && FileProcessor.FrontMatterBlock(FileProcessor.Opening + block + FileProcessor.Closing + tail) == Some(block)
      && var fields := FileProcessor.Fields(block);
      && (forall k :: 0 <= k < |pairs| ==> pairs[k].0 in fields && fields[pairs[k].0] == Trim(pairs[k].1))
      && (forall key :: key in fields ==> exists k :: 0 <= k < |pairs| && pairs[k].0 == key)
  {
    var lines := LinesOf(pairs);
    var block := Join(lines, "\n");
    forall k | 0 <= k < |lines| ensures '\n' !in lines[k] && lines[k] != [] && lines[k][0] != '-' {
      LineShape(pairs[k].0, pairs[k].1);
    }
    JoinedLines(lines);
    ClosingFree(block);
    FileProcessor.BlockOf(block, tail);
    forall k | 0 <= k < |lines| - 1 ensures Clean(lines[k], "\n") {
      CleanSingle(lines[k], '\n');
    }
    ContainsChar(lines[|lines| - 1], '\n');
    SplitJoin(lines, "\n");
    FoldKeyLines(map[], pairs);
    forall k | 0 <= k < |pairs| ensures pairs[k].0 in SetAll(map[], pairs) && SetAll(map[], pairs)[pairs[k].0] == Trim(pairs[k].1) {
      SetAllLookup(map[], pairs, k);
    }
    forall key | key in SetAll(map[], pairs) ensures exists k :: 0 <= k < |pairs| && pairs[k].0 == key {
      SetAllKeys(map[], pairs, key);
      KeysOfIndex(pairs, key);
    }
  }

  /** The watcher finds the front matter the route wrote, when no field holds
      a line break: its block is exactly the template's lines, and the fields
      it parses from them are the published values, trimmed. */
  lemma PublishedFileRead(kind: Option<string>, content: Option<string>, m: PublishMetadata, date: string)
    requires '\n' !in Interpolated(m.title) && '\n' !in date && '\n' !in OrEmpty(m.description)
    requires '\n' !in OrEmpty(m.category) && '\n' !in OrEmpty(m.tags) && '\n' !in Interpolated(kind)
    ensures var block := Join(FrontMatterLines(kind, m, date), "\n");
      && FileProcessor.FrontMatterBlock(PublishedText(kind, content, m, date)) == Some(block)
      && var fields := FileProcessor.Fields(block);
      var pairs := FrontMatterPairs(kind, m, date);
      && (forall k :: 0 <= k < |pairs| ==> pairs[k].0 in fields && fields[pairs[k].0] == Trim(pairs[k].1))
      && (forall key :: key in fields ==> exists k :: 0 <= k < |pairs| && pairs[k].0 == key)
  {
    var pairs := FrontMatterPairs(kind, m, date);
    FrontMatterKeys(kind, m, date);
    assert '\n' !in "[" + OrEmpty(m.tags) + "]";
    var block := Join(FrontMatterLines(kind, m, date), "\n");
    var tail := "\n\n" + Interpolated(content);
    assert PublishedText(kind, content, m, date) == FileProcessor.Opening + block + FileProcessor.Closing + tail;
    TemplateRead(pairs, tail);
  }

  // ----- the content routes and the listing -----

  /** `type === 'presentations' ? PRESENTATIONS_DIR : POSTS_DIR` in the list
      and delete routes. */
  function ContentDirectory(param: string): (r: Directory)
    ensures r == PresentationsDir <==> param == "presentations"
  {
    if param == "presentations" then PresentationsDir else PostsDir
  }

  /** The delete route as evidently intended: the directory `/api/publish`
      writes a type to, with the plural spelling of the route still accepted. */
  function ContentDirectoryFixed(param: string): (r: Directory)
    ensures r == PresentationsDir <==> param == "presentation" || param == "presentations"
  {
    if param == "presentation" || param == "presentations" then PresentationsDir else PostsDir
  }

  /** As written, the editor deletes a presentation with the type it published
      it under, `presentation`, and the route then looks in the posts directory. */
  lemma DeleteMissesPresentation()
    ensures PublishDirectory(Some("presentation")) == PresentationsDir
    ensures ContentDirectory("presentation") == PostsDir
  {
  }

  /** With the fix, deleting with the type a file was published under reaches
      the directory it was written to, for every type. */
  lemma DeleteFindsPublished(kind: string, content: Option<string>, m: PublishMetadata, date: string, hookOk: bool)
    requires kind != "presentations"
    requires PublishSlug(m).Some?
    ensures Publish(Some(kind), content, m, date, true, hookOk).written.value.dir == ContentDirectoryFixed(kind)
  {
  }

  /** Removing a published file from the watched directory asks the store to
      delete the slug `{date}-{slug}`: the file name, not the slug it was published with. */
  lemma PublishedFileDeleteSlug(dir: string, date: string, slug: string)
    requires '.' !in date && '/' !in date && '.' !in slug && '/' !in slug
    ensures FileProcessor.DeletedSlug(dir + "/" + PublishFilename(date, slug)) == date + "-" + slug
  {
    FileProcessor.DeletedSlugOf(dir, date + "-" + slug, "md");
    assert dir + "/" + (date + "-" + slug) + "." + "md" == dir + "/" + PublishFilename(date, slug);
  }

  /** `body.slice(0, 200) + '...'` */
  function Excerpt(body: string): (r: string)
    ensures |r| <= 203 && EndsWith(r, "...")
    ensures StartsWith(body, r[..|r| - 3])
    ensures |body| <= 200 ==> r == body + "..."
    ensures |body| >= 200 ==> |r| == 203
  {
    var head := if |body| <= 200 then body else body[..200];
    var r := head + "...";
    assert r[|r| - 3..] == "...";
    assert r[..|r| - 3] == head;
    r
  }
}
