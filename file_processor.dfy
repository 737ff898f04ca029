/** The file processor (`FileProcessor`): turns the watcher's events into
    requests to the publishing API, reading the front matter of a changed file
    or falling back to defaults derived from its path. */
module FileProcessor {
  import opened Strings
  import opened Optional
  import FileLoader
  import opened FileWatcher

  /** A metadata value: a string, or the `tags: []` array of the defaults. */
  datatype Value = Text(text: string) | List(items: seq<string>)

  type Metadata = map<string, Value>

  /** The `action` argument of `processFile`. */
  datatype Action = AddAction | ChangeAction | DeleteAction

  /** The request `processFile` hands to the publishing API. */
  datatype ApiCall =
    | CreatePost(kind: Value, content: string, metadata: Metadata)
    | UpdatePost(slug: string, content: string, metadata: Metadata)
    | DeletePost(slug: string)

  // ----- the front-matter block -----

  const Opening: string := "---\n"
  const Closing: string := "\n---"

  /** The group of `content.match(/^---\n([\s\S]*?)\n---/)`: the shortest text
      between a `---` line at the very start and the next `\n---`. */
  function FrontMatterBlock(content: string): (r: Option<string>)
    ensures r.Some? ==> StartsWith(content, Opening + r.value + Closing) && !Contains(r.value + "\n--", Closing)
    ensures r.None? <==> !StartsWith(content, Opening) || !Contains(content[4..], Closing)
  {
    if StartsWith(content, Opening) then
      var i := IndexOf(content[4..], Closing);
      if i < 0 then None
      else
        HeadThenOccurrence(content, Opening, Closing, i);
        FirstOccurrenceFree(content[4..], Closing, i);
        assert Closing[..3] == "\n--";
        Some(content[4..][..i])
    else None
  }

  /** A head followed by an occurrence of `pat` in what comes after it. */
  lemma HeadThenOccurrence(s: string, h: string, pat: string, i: int)
    requires StartsWith(s, h) && OccursAt(s[|h|..], pat, i)
    ensures StartsWith(s, h + s[|h|..][..i] + pat)
  {
    var rest := s[|h|..];
    assert s == h + rest;
    assert rest[..i] + pat == rest[..i + |pat|];
    assert s[..|h| + i + |pat|] == h + rest[..i + |pat|];
  }

  /** Before the first occurrence of `pat` there is none, even counting all
      but the last character of the occurrence itself. */
  lemma FirstOccurrenceFree(s: string, pat: string, i: int)
    requires pat != [] && OccursAt(s, pat, i)
    requires forall j :: 0 <= j < i ==> !OccursAt(s, pat, j)
    ensures !Contains(s[..i] + pat[..|pat| - 1], pat)
  {
    var t := s[..i] + pat[..|pat| - 1];
    assert t == s[..i + |pat| - 1] by {
      assert s[i..i + |pat|][..|pat| - 1] == s[i..i + |pat| - 1];
      assert s[..i + |pat| - 1] == s[..i] + s[i..i + |pat| - 1];
    }
    forall j | 0 <= j <= |t| - |pat| ensures !OccursAt(t, pat, j) {
      assert j < i && t[j..j + |pat|] == s[j..j + |pat|];
      assert !OccursAt(s, pat, j);
    }
  }

  /** The converse reading of the match: a block followed by the first `\n---`
      after it is the group found. */
  lemma BlockOf(b: string, tail: string)
    requires !Contains(b + "\n--", Closing)
    ensures FrontMatterBlock(Opening + b + Closing + tail) == Some(b)
  {
    var content := Opening + b + Closing + tail;
    var rest := content[4..];
    assert content[..4] == Opening;
    assert rest == b + Closing + tail;
    assert rest[|b|..|b| + 4] == Closing;
    assert OccursAt(rest, Closing, |b|);
    var t := b + "\n--";
    forall j | 0 <= j < |b| ensures !OccursAt(rest, Closing, j) {
      assert rest[j..j + 4] == t[j..j + 4];
      assert !OccursAt(t, Closing, j);
    }
    var i := IndexOf(rest, Closing);
    assert i == |b|;
    assert rest[..i] == b;
  }

  // ----- the fields of the block -----

  /** One front-matter line, `const [key, ...values] = line.split(':')`: a
      non-empty key with at least one `:` after it sets the trimmed key to the
      rest, re-joined with `:` and trimmed. */
  function ParseField(parsed: map<string, string>, line: string): map<string, string>
  {
    var parts := Split(line, ":");
    if parts[0] != "" && |parts| > 1 then parsed[Trim(parts[0]) := Trim(Join(parts[1..], ":"))]
    else parsed
  }

  /** The `parsed` object after the `forEach` over `lines`, starting from `parsed`. */
  function FoldFields(parsed: map<string, string>, lines: seq<string>): map<string, string>
    decreases |lines|
  {
    if lines == [] then parsed else FoldFields(ParseField(parsed, lines[0]), lines[1..])
  }

  /** A line `key:value` with a non-empty key free of `:` sets the trimmed key;
      every further `:` stays in the value. */
  lemma FieldLine(parsed: map<string, string>, key: string, value: string)
    requires key != "" && ':' !in key
    ensures ParseField(parsed, key + ":" + value) == parsed[Trim(key) := Trim(value)]
  {
    CleanSingle(key, ':');
    SplitCons(key, ":", value);
    var parts := Split(key + ":" + value, ":");
    assert parts[1..] == Split(value, ":");
    JoinSplit(value, ":");
  }

  /** A line without `:`, or one that opens with `:`, sets nothing. */
  lemma FieldLineSkipped(parsed: map<string, string>, line: string)
    requires ':' !in line || line[0] == ':'
    ensures ParseField(parsed, line) == parsed
  {
    ContainsChar(line, ':');
    if ':' !in line {
      SplitNone(line, ":");
    } else {
      assert line[0..1] == ":";
      assert OccursAt(line, ":", 0);
      assert IndexOf(line, ":") == 0;
    }
  }

  /** The defaults `extractMetadata` starts from; `now` is `new Date().toISOString()`. */
  function Defaults(path: string, now: string): (r: Metadata)
    ensures forall k :: k in r && k != "tags" ==> r[k].Text?
  {
    DefaultsOf(TitleFromFilename(path), ContentType(path), now)
  }

  /** The default fields for a title, a type and a date: every one is text
      but the empty `tags` list. */
  function DefaultsOf(title: string, kind: string, now: string): (r: Metadata)
    ensures forall k :: k in r && k != "tags" ==> r[k].Text?
  {
    AsText(map["title" := title, "type" := kind, "date" := now, "category" := ""])["tags" := List([])]
  }

  /** The defaults hold the file's title and no slug. */
  lemma DefaultKeys(path: string, now: string)
    ensures "title" in Defaults(path, now) && Defaults(path, now)["title"] == Text(TitleFromFilename(path))
    ensures "slug" !in Defaults(path, now)
  {
    DefaultKeysOf(TitleFromFilename(path), ContentType(path), now);
  }

  lemma DefaultKeysOf(title: string, kind: string, now: string)
    ensures "title" in DefaultsOf(title, kind, now) && DefaultsOf(title, kind, now)["title"] == Text(title)
    ensures "slug" !in DefaultsOf(title, kind, now)
  {
    assert "slug"[0] == 's' && "type"[0] == 't' && "date"[0] == 'd' && "tags"[0] == 't';
    assert |"slug"| == 4 && |"title"| == 5 && |"category"| == 8;
  }

  /** The parsed fields as metadata values. */
  function AsText(parsed: map<string, string>): (r: Metadata)
    ensures r.Keys == parsed.Keys && forall k :: k in parsed ==> r[k] == Text(parsed[k])
  {
    map k | k in parsed :: Text(parsed[k])
  }

  /** The fields of a front-matter block. */
  function Fields(block: string): map<string, string>
  {
    FoldFields(map[], Split(block, "\n"))
  }

  /** `extractMetadata(content, file)`: the defaults, overridden by every field
      of the front-matter block when there is one. */
  function MetadataOf(content: string, path: string, now: string): (r: Metadata)
    ensures Defaults(path, now).Keys <= r.Keys
    ensures forall k :: k in r && k != "tags" ==> r[k].Text?
  {
    match FrontMatterBlock(content)
    case None => Defaults(path, now)
    case Some(block) => Defaults(path, now) + AsText(Fields(block))
  }

  /** Without a block at the very start the metadata are the defaults. */
  lemma MetadataWithoutBlock(content: string, path: string, now: string)
    requires !StartsWith(content, Opening) || !Contains(content[4..], Closing)
    ensures MetadataOf(content, path, now) == Defaults(path, now)
  {
  }

  /** With a block, every field of it overrides the default of the same key,
      and the other defaults stay. */
  lemma MetadataWithBlock(content: string, path: string, now: string, block: string)
    requires FrontMatterBlock(content) == Some(block)
    ensures var m := MetadataOf(content, path, now);
      && (forall k :: k in m <==> k in Defaults(path, now) || k in Fields(block))
      && (forall k :: k in Fields(block) ==> m[k] == Text(Fields(block)[k]))
      && (forall k :: k in Defaults(path, now) && k !in Fields(block) ==> m[k] == Defaults(path, now)[k])
  {
  }

  /** `extractMetadata`, filling `parsed` one line at a time. */
  method ExtractMetadata(content: string, path: string, now: string) returns (metadata: Metadata)
    ensures metadata == MetadataOf(content, path, now)
  {
    var defaults := Defaults(path, now);
    var block := FrontMatterBlock(content);
    if block.None? {
      return defaults;
    }
    var lines := Split(block.value, "\n");
    var parsed: map<string, string> := map[];
    var i := 0;
    while i < |lines|
      invariant 0 <= i <= |lines|
      invariant FoldFields(parsed, lines[i..]) == Fields(block.value)
    {
      assert lines[i..][1..] == lines[i + 1..];
      parsed := ParseField(parsed, lines[i]);
      i := i + 1;
    }
    assert lines[i..] == [];
    metadata := defaults + AsText(parsed);
  }

  // ----- names derived from the path -----

  /** `path.split('/').pop()` */
  function LastSegment(path: string): (r: string)
    ensures '/' !in r
  {
    var parts := Split(path, "/");
    SplitLast(path, "/");
    ContainsChar(parts[|parts| - 1], '/');
    parts[|parts| - 1]
  }

  /** The segment after the last `/` is the file name. */
  lemma LastSegmentOf(dir: string, name: string)
    requires '/' !in name
    ensures LastSegment(dir + "/" + name) == name
  {
    SplitLastOf(dir, '/', name);
  }

  /** The index of the last `c` in `s`, or -1. */
  function LastIndexOf(s: string, c: char): (r: int)
    ensures -1 <= r < |s|
    ensures r >= 0 ==> s[r] == c
    ensures forall k :: r < k < |s| ==> s[k] != c
  {
    if s == [] then -1
    else if s[|s| - 1] == c then |s| - 1
    else LastIndexOf(s[..|s| - 1], c)
  }

  lemma {:induction false} LastIndexOfAfter(s: string, c: char, t: string)
    requires c !in t
    ensures LastIndexOf(s + [c] + t, c) == |s|
    decreases |t|
  {
    var u := s + [c] + t;
    if t != [] {
      assert u[|u| - 1] == t[|t| - 1];
      assert u[..|u| - 1] == s + [c] + t[..|t| - 1];
      LastIndexOfAfter(s, c, t[..|t| - 1]);
    }
  }

  /** A non-empty extension free of `.` and `/`: what `[^/.]+` matches. */
  predicate IsExtension(ext: string) {
    ext != "" && '.' !in ext && '/' !in ext
  }

  /** `name.replace(/\.[^/.]+$/, '')`: a final `.ext` is removed. */
  function StripExtension(name: string): (r: string)
    ensures r == name || (|r| < |name| && name == r + "." + name[|r| + 1..] && IsExtension(name[|r| + 1..]))
  {
    var i := LastIndexOf(name, '.');
    if 0 <= i < |name| - 1 && '/' !in name[i + 1..] then
      assert name == name[..i] + "." + name[i + 1..];
      AfterLastDot(name, i);
      name[..i]
    else name
  }

  lemma AfterLastDot(name: string, i: int)
    requires 0 <= i < |name| && i == LastIndexOf(name, '.')
    ensures '.' !in name[i + 1..]
  {
    var ext := name[i + 1..];
    forall k | 0 <= k < |ext| ensures ext[k] != '.' {
      assert ext[k] == name[i + 1 + k];
    }
  }

  /** The final extension is exactly what goes. */
  lemma StripExtensionOf(base: string, ext: string)
    requires IsExtension(ext)
    ensures StripExtension(base + "." + ext) == base
  {
    var name := base + "." + ext;
    LastIndexOfAfter(base, '.', ext);
    assert name[|base| + 1..] == ext;
    assert name[..|base|] == base;
  }

  /** `\w`: an ASCII letter, digit or underscore. */
  predicate IsWordChar(c: char) {
    'a' <= c <= 'z' || 'A' <= c <= 'Z' || '0' <= c <= '9' || c == '_'
  }

  /** Position `i` matches `\b\w`: a word character with no word character before it. */
  predicate WordStart(s: string, i: int)
    requires 0 <= i < |s|
  {
    IsWordChar(s[i]) && (i == 0 || !IsWordChar(s[i - 1]))
  }

  /** `s.replace(/\b\w/g, l => l.toUpperCase())` */
  function Capitalize(s: string): (r: string)
    ensures |r| == |s|
  {
    seq(|s|, i requires 0 <= i < |s| => if WordStart(s, i) then UpperChar(s[i]) else s[i])
  }

  /** Capitalising keeps every word where it was and uppercases its first
      letter; every other character is left as it is. */
  lemma CapitalizeWords(s: string)
    ensures forall i :: 0 <= i < |s| ==> (WordStart(Capitalize(s), i) <==> WordStart(s, i))
    ensures forall i :: 0 <= i < |s| && WordStart(s, i) ==> !('a' <= Capitalize(s)[i] <= 'z')
    ensures forall i :: 0 <= i < |s| && !WordStart(s, i) ==> Capitalize(s)[i] == s[i]
    ensures forall c :: c in Capitalize(s) && !('A' <= c <= 'Z') ==> c in s
  {
    var r := Capitalize(s);
    assert forall i :: 0 <= i < |s| ==> (IsWordChar(r[i]) <==> IsWordChar(s[i]));
    forall c | c in r && !('A' <= c <= 'Z') ensures c in s {
      var i :| 0 <= i < |r| && r[i] == c;
      assert r[i] == s[i];
    }
  }

  /** Capitalising twice is capitalising once. */
  lemma CapitalizeIdempotent(s: string)
    ensures Capitalize(Capitalize(s)) == Capitalize(s)
  {
    var r := Capitalize(s);
    CapitalizeWords(s);
    forall i | 0 <= i < |s| ensures Capitalize(r)[i] == r[i] {
      if WordStart(s, i) {
        assert UpperChar(r[i]) == r[i];
      }
    }
  }

  /** `getTitleFromFilename(path)`: the file name without its extension,
      hyphens turned into spaces, each word capitalised. */
  function TitleFromFilename(path: string): (r: string)
    ensures '-' !in r && '/' !in r
  {
    var base := StripExtension(LastSegment(path));
    var spaced := ReplaceChar(base, '-', ' ');
    assert '/' !in base;
    CapitalizeWords(spaced);
    Capitalize(spaced)
  }

  /** The title of `dir/base.ext`. */
  lemma TitleOf(dir: string, base: string, ext: string)
    requires '/' !in base && IsExtension(ext)
    ensures TitleFromFilename(dir + "/" + base + "." + ext) == Capitalize(ReplaceChar(base, '-', ' '))
  {
    assert '/' !in base + "." + ext;
    LastSegmentOf(dir, base + "." + ext);
    assert dir + "/" + base + "." + ext == dir + "/" + (base + "." + ext);
    StripExtensionOf(base, ext);
  }

  /** A file name with hyphens becomes a title in which every word is
      capitalised, in whatever directory it sits. */
  lemma TitleExample(dir: string)
    ensures TitleFromFilename(dir + "/my-first-post.md") == "My First Post"
  {
    assert dir + "/" + "my-first-post" + "." + "md" == dir + "/my-first-post.md" by {
      PathPieces(dir);
    }
    TitleOf(dir, "my-first-post", "md");
    SpacedExample();
    CapitalizeExample();
  }

  lemma PathPieces(dir: string)
    ensures dir + "/" + "my-first-post" + "." + "md" == dir + "/my-first-post.md"
  {
    assert "/" + "my-first-post" + "." + "md" == "/my-first-post.md";
  }

  lemma SpacedExample()
    ensures ReplaceChar("my-first-post", '-', ' ') == "my first post"
  {
    var base := "my-first-post";
    forall i | 0 <= i < |base| ensures ReplaceChar(base, '-', ' ')[i] == "my first post"[i] {
    }
  }

  lemma CapitalizeExample()
    ensures Capitalize("my first post") == "My First Post"
  {
    var s := "my first post";
    forall i | 0 <= i < |s| ensures Capitalize(s)[i] == "My First Post"[i] {
      assert WordStart(s, i) <==> i == 0 || i == 3 || i == 9;
    }
  }

  /** `getContentType(path)` */
  function ContentType(path: string): (r: string)
    ensures r == "marp" <==> Contains(ToLower(path), "marp")
    ensures r == "marp" || r == "post"
  {
    if Contains(ToLower(path), "marp") then "marp" else "post"
  }

  /** The type does not depend on the case of the path. */
  lemma ContentTypeIgnoresCase(path: string)
    ensures ContentType(ToLower(path)) == ContentType(path)
  {
    assert ToLower(ToLower(path)) == ToLower(path);
  }

  // ----- slugs -----

  /** `.replace(/^-+/, '')`: the leading run of hyphens. */
  function DropLeadingHyphens(s: string): (r: string)
    ensures |r| <= |s| && r == s[|s| - |r|..]
    ensures r == [] || r[0] != '-'
    ensures forall k :: 0 <= k < |s| - |r| ==> s[k] == '-'
  {
    if s != [] && s[0] == '-' then DropLeadingHyphens(s[1..]) else s
  }

  /** `.replace(/-+$/, '')`: the trailing run of hyphens. */
  function DropTrailingHyphens(s: string): (r: string)
    ensures |r| <= |s| && r == s[..|r|]
    ensures r == [] || r[|r| - 1] != '-'
    ensures forall k :: |r| <= k < |s| ==> s[k] == '-'
  {
    if s != [] && s[|s| - 1] == '-' then DropTrailingHyphens(s[..|s| - 1]) else s
  }

  /** `generateSlug(title)` of the processor: lower-case, collapse runs outside
      `[a-z0-9]` into a hyphen, then remove every leading and trailing hyphen. */
  function WatcherSlug(title: string): string
  {
    DropTrailingHyphens(DropLeadingHyphens(CollapseRuns(ToLower(title))))
  }

  /** The processor's slug rule and the loader's agree on every title: after
      collapsing there is at most one hyphen at each end. */
  lemma SlugRulesAgree(title: string)
    ensures WatcherSlug(title) == FileLoader.GenerateSlug(title)
  {
    var c := CollapseRuns(ToLower(title));
    var t := if c != [] && c[0] == '-' then c[1..] else c;
    LeadingOfCollapsed(c);
    assert Collapsed(t) by {
      if c != [] && c[0] == '-' {
        CollapsedTail(c);
      }
    }
    TrailingOfCollapsed(t);
  }

  lemma LeadingOfCollapsed(c: string)
    requires Collapsed(c)
    ensures DropLeadingHyphens(c) == if c != [] && c[0] == '-' then c[1..] else c
  {
    if c != [] && c[0] == '-' {
      assert |c| > 1 ==> c[1] != '-';
      assert DropLeadingHyphens(c) == DropLeadingHyphens(c[1..]);
    }
  }

  lemma TrailingOfCollapsed(t: string)
    requires Collapsed(t)
    ensures DropTrailingHyphens(t) == if t != [] && t[|t| - 1] == '-' then t[..|t| - 1] else t
  {
    if t != [] && t[|t| - 1] == '-' {
      assert |t| > 1 ==> t[|t| - 2] != '-';
      assert DropTrailingHyphens(t) == DropTrailingHyphens(t[..|t| - 1]);
    }
  }

  /** The processor's slugs use only `[a-z0-9-]`, with no doubled hyphen and
      no hyphen at either end. */
  lemma WatcherSlugShape(title: string)
    ensures var r := WatcherSlug(title);
      Collapsed(r) && (r == [] || (r[0] != '-' && r[|r| - 1] != '-'))
  {
    SlugRulesAgree(title);
  }

  /** A slug is its own slug. */
  lemma WatcherSlugIdempotent(title: string)
    ensures WatcherSlug(WatcherSlug(title)) == WatcherSlug(title)
  {
    var s := WatcherSlug(title);
    WatcherSlugShape(title);
    SlugRulesAgree(s);
    ToLowerFixed(s);
    CollapseRunsFixed(s);
  }

  /** The slug `handleModifiedFile` updates: `metadata.slug || generateSlug(metadata.title)`. */
  function ModifiedSlug(m: Metadata): string
    requires "title" in m && m["title"].Text?
    requires "slug" in m ==> m["slug"].Text?
  {
    if "slug" in m && m["slug"].text != "" then m["slug"].text else WatcherSlug(m["title"].text)
  }

  /** The slug `handleDeletedFile` deletes: the file name without its extension. */
  function DeletedSlug(path: string): string
  {
    StripExtension(LastSegment(path))
  }

  /** The delete slug is the bare file name, with no other normalisation. */
  lemma DeletedSlugOf(dir: string, base: string, ext: string)
    requires '/' !in base && IsExtension(ext)
    ensures DeletedSlug(dir + "/" + base + "." + ext) == base
  {
    assert '/' !in base + "." + ext;
    LastSegmentOf(dir, base + "." + ext);
    assert dir + "/" + base + "." + ext == dir + "/" + (base + "." + ext);
    StripExtensionOf(base, ext);
  }

  /** The two slugs of one file differ whenever its name is not already a
      slug (an upper-case letter, a space, a doubled hyphen): a change of a file
      without front matter updates a slug of its title, the removal deletes
      the bare name. */
  lemma SlugsOfOneFile(dir: string, base: string, ext: string, content: string, now: string)
    requires '/' !in base && IsExtension(ext) && !Collapsed(base)
    requires !StartsWith(content, Opening)
    ensures var path := dir + "/" + base + "." + ext;
      && DeletedSlug(path) == base
      && ProcessFile(path, ChangeAction, Some(content), now).value.slug != base
  {
    var path := dir + "/" + base + "." + ext;
    DeletedSlugOf(dir, base, ext);
    var title := TitleFromFilename(path);
    ChangeSlugWithoutBlock(path, content, now);
    WatcherSlugShape(title);
  }

  /** The slug a change goes to is the one `ModifiedSlug` picks from the metadata. */
  lemma ChangeSlug(path: string, content: string, now: string)
    ensures var m := MetadataOf(content, path, now);
      && "title" in m && m["title"].Text? && ("slug" in m ==> m["slug"].Text?)
      && ProcessFile(path, ChangeAction, Some(content), now).value.slug == ModifiedSlug(m)
  {
    DefaultKeys(path, now);
  }

  /** Without front matter a change goes to the slug of the file's title. */
  lemma ChangeSlugWithoutBlock(path: string, content: string, now: string)
    requires !StartsWith(content, Opening)
    ensures ProcessFile(path, ChangeAction, Some(content), now).value.slug == WatcherSlug(TitleFromFilename(path))
  {
    ChangeSlug(path, content, now);
    MetadataWithoutBlock(content, path, now);
    DefaultKeys(path, now);
  }

  // ----- processing one event -----

  /** `processFile(file, action)`, with `read` the text `readFile` returned, or
      `None` when it threw (the error is caught, no request is made). */
  function ProcessFile(path: string, action: Action, read: Option<string>, now: string): (r: Option<ApiCall>)
    ensures r.None? <==> action != DeleteAction && read.None?
    ensures action == DeleteAction ==> r == Some(DeletePost(DeletedSlug(path)))
    ensures action == AddAction && read.Some? ==>
      r.value.CreatePost? && r.value.content == read.value && r.value.metadata == MetadataOf(read.value, path, now)
      && r.value.kind == r.value.metadata["type"]
    ensures action == ChangeAction && read.Some? ==>
      r.value.UpdatePost? && r.value.content == read.value && r.value.metadata == MetadataOf(read.value, path, now)
  {
    if action == DeleteAction then Some(DeletePost(DeletedSlug(path)))
    else if read.None? then None
    else
      var m := MetadataOf(read.value, path, now);
      if action == AddAction then Some(CreatePost(m["type"], read.value, m))
      else Some(UpdatePost(ModifiedSlug(m), read.value, m))
  }

  /** How the `try` block of `processFile` ends: the request it sent, and
      whether something in it rejected. */
  datatype TryOutcome = TryOutcome(call: Option<ApiCall>, threw: bool)

  /** One awaited `processFile(file, action)`: the request it sent, whether
      the `catch` logged an error, and whether the returned promise rejected. */
  datatype Run = Run(call: Option<ApiCall>, logged: bool, rejected: bool)

  /** The `try` block: `read` is what `readFile` returned (`None` when it
      rejected, and then no request is made), `apiOk` whether the request,
      once sent, succeeded. */
  function TryProcess(path: string, action: Action, read: Option<string>, apiOk: bool, now: string): (r: TryOutcome)
    ensures r.call == ProcessFile(path, action, read, now)
    ensures r.threw <==> (action != DeleteAction && read.None?) || !apiOk
  {
    var call := ProcessFile(path, action, read, now);
    TryOutcome(call, call.None? || !apiOk)
  }

  /** The `catch` block: the error is logged and not rethrown. */
  function Catch(o: TryOutcome): Run
  {
    Run(o.call, o.threw, false)
  }

  /** `processFile` as its caller sees it: whatever fails inside is logged,
      and the promise never rejects. */
  function RunProcessFile(path: string, action: Action, read: Option<string>, apiOk: bool, now: string): (r: Run)
    ensures r.call == ProcessFile(path, action, read, now)
    ensures r.logged <==> (action != DeleteAction && read.None?) || !apiOk
    ensures !r.rejected
  {
    Catch(TryProcess(path, action, read, apiOk, now))
  }

  /** An update goes to the slug the front matter names when it is non-empty,
      and otherwise to a well-formed slug of the title. */
  lemma UpdateSlug(path: string, content: string, now: string)
    ensures var r := ProcessFile(path, ChangeAction, Some(content), now).value;
      var m := MetadataOf(content, path, now);
      || ("slug" in m && r.slug == m["slug"].text != "")
      || (("slug" !in m || m["slug"].text == "") && r.slug == WatcherSlug(m["title"].text)
          && Collapsed(r.slug) && (r.slug == [] || (r.slug[0] != '-' && r.slug[|r.slug| - 1] != '-')))
  {
    ChangeSlug(path, content, now);
    WatcherSlugShape(MetadataOf(content, path, now)["title"].text);
  }

  // ----- the handlers on the watcher -----

  /** The registry `setupHandlers` leaves on a watcher that had no handlers. */
  function Registry(onAdd: HandlerId, onChange: HandlerId, onUnlink: HandlerId): map<string, seq<HandlerId>>
  {
    map[AddEvent := [onAdd], ChangeEvent := [onChange], UnlinkEvent := [onUnlink]]
  }

  /** The call an event makes through `Registry`. */
  function Route(onAdd: HandlerId, onChange: HandlerId, onUnlink: HandlerId, e: Fired): seq<Call>
  {
    if e.event == AddEvent then [Call(onAdd, e.event, e.data)]
    else if e.event == ChangeEvent then [Call(onChange, e.event, e.data)]
    else if e.event == UnlinkEvent then [Call(onUnlink, e.event, e.data)]
    else []
  }

  /** The calls of a sequence of events, one per `add`, `change` and `unlink`. */
  function Routed(onAdd: HandlerId, onChange: HandlerId, onUnlink: HandlerId, events: seq<Fired>): seq<Call>
    decreases |events|
  {
    if events == [] then []
    else Routed(onAdd, onChange, onUnlink, events[..|events| - 1]) + Route(onAdd, onChange, onUnlink, events[|events| - 1])
  }

  lemma {:induction false} CallsForRegistry(onAdd: HandlerId, onChange: HandlerId, onUnlink: HandlerId, events: seq<Fired>)
    ensures CallsFor(Registry(onAdd, onChange, onUnlink), events) == Routed(onAdd, onChange, onUnlink, events)
    decreases |events|
  {
    if events != [] {
      var e := events[|events| - 1];
      CallsForRegistry(onAdd, onChange, onUnlink, events[..|events| - 1]);
      var hs := HandlersFor(Registry(onAdd, onChange, onUnlink), e.event);
      assert AllCalls(hs, e) == Route(onAdd, onChange, onUnlink, e);
    }
  }

  /** The action `setupHandlers` passes to `processFile` from handler `h`. */
  function ActionOf(onAdd: HandlerId, onChange: HandlerId, h: HandlerId): Action
  {
    if h == onAdd then AddAction else if h == onChange then ChangeAction else DeleteAction
  }

  /** `failing` holds a processor handler only when some run of `processFile`
      behind it rejects. */
  ghost predicate FailingFromRuns(onAdd: HandlerId, onChange: HandlerId, onUnlink: HandlerId, failing: set<HandlerId>)
  {
    forall h :: h in failing && (h == onAdd || h == onChange || h == onUnlink) ==>
      exists path, read, apiOk, now :: RunProcessFile(path, ActionOf(onAdd, onChange, h), read, apiOk, now).rejected
  }

  /** `processFile` catches its own errors, so its handlers never throw: a scan
      with only the processor registered runs to the end, makes one call per
      event, and never triggers `error`. */
  lemma ProcessorScan(onAdd: HandlerId, onChange: HandlerId, onUnlink: HandlerId,
                      entries: seq<Entry>, files: seq<FileInfo>, failing: set<HandlerId>)
    requires FailingFromRuns(onAdd, onChange, onUnlink, failing)
    ensures Scan(Registry(onAdd, onChange, onUnlink), entries, Listed(files), failing)
         == ScanResult(Kept(Record(entries, files), files),
                       Routed(onAdd, onChange, onUnlink, Events(entries, files) + Unlinks(entries, files)), false)
  {
    forall h | h == onAdd || h == onChange || h == onUnlink
      ensures h !in failing
    {
      if h in failing {
        assert false;
      }
    }
    var handlers := Registry(onAdd, onChange, onUnlink);
    assert Quiet(handlers, failing);
    ScanQuiet(handlers, entries, files, failing);
    CallsForRegistry(onAdd, onChange, onUnlink, Events(entries, files) + Unlinks(entries, files));
  }

  /** `FileProcessor`: the watcher it listens on and its three handlers. */
  class Processor {
    const watcher: Watcher
    const onAdd: HandlerId
    const onChange: HandlerId
    const onUnlink: HandlerId

    /** `new FileProcessor(watcher)`: `setupHandlers` registers one handler
        each for `add`, `change` and `unlink`. */
    constructor(watcher: Watcher, onAdd: HandlerId, onChange: HandlerId, onUnlink: HandlerId)
      requires watcher.Valid()
      modifies watcher
      ensures watcher.Valid()
      ensures this.watcher == watcher && this.onAdd == onAdd && this.onChange == onChange && this.onUnlink == onUnlink
      ensures watcher.handlers
           == old(watcher.handlers)[AddEvent := AddOnce(HandlersFor(old(watcher.handlers), AddEvent), onAdd)]
                                   [ChangeEvent := AddOnce(HandlersFor(old(watcher.handlers), ChangeEvent), onChange)]
                                   [UnlinkEvent := AddOnce(HandlersFor(old(watcher.handlers), UnlinkEvent), onUnlink)]
      ensures old(watcher.handlers) == map[] ==> watcher.handlers == Registry(onAdd, onChange, onUnlink)
      ensures watcher.lastChecked == old(watcher.lastChecked) && watcher.isWatching == old(watcher.isWatching)
      ensures watcher.intervalActive == old(watcher.intervalActive)
    {
      this.watcher := watcher;
      this.onAdd := onAdd;
      this.onChange := onChange;
      this.onUnlink := onUnlink;
      new;
      ghost var h0 := watcher.handlers;
      watcher.On(AddEvent, onAdd);
      assert HandlersFor(watcher.handlers, ChangeEvent) == HandlersFor(h0, ChangeEvent);
      watcher.On(ChangeEvent, onChange);
      assert HandlersFor(watcher.handlers, UnlinkEvent) == HandlersFor(h0, UnlinkEvent);
      watcher.On(UnlinkEvent, onUnlink);
      if h0 == map[] {
        RegistryFromEmpty(onAdd, onChange, onUnlink);
      }
    }
  }

  /** Registering the three handlers on an empty registry gives `Registry`. */
  lemma RegistryFromEmpty(onAdd: HandlerId, onChange: HandlerId, onUnlink: HandlerId)
    ensures map[][AddEvent := AddOnce(HandlersFor(map[], AddEvent), onAdd)]
                 [ChangeEvent := AddOnce(HandlersFor(map[], ChangeEvent), onChange)]
                 [UnlinkEvent := AddOnce(HandlersFor(map[], UnlinkEvent), onUnlink)]
         == Registry(onAdd, onChange, onUnlink)
  {
    assert HandlersFor(map[], AddEvent) == [];
  }
}
