/** The markdown editor: the splices `wrapText` and `insertText` make at the
    textarea's selection, the image link an upload inserts, the toolbar's
    action table and the drop zone's filter. */
module Editing {
  import opened Optional
  import opened Strings

  // ----- the splices -----

  /** `text.substring(0, start) + before + text.substring(start, end) + after + text.substring(end)`:
      the selection, surrounded by `before` and `after`. */
  function Wrapped(text: string, start: nat, end: nat, before: string, after: string): (r: string)
    requires start <= end <= |text|
    ensures |r| == |text| + |before| + |after|
    ensures r[..start] == text[..start]
    ensures r[start..start + |before|] == before
    ensures r[start + |before|..end + |before|] == text[start..end]
    ensures r[end + |before|..end + |before| + |after|] == after
    ensures r[end + |before| + |after|..] == text[end..]
  {
    var r := text[..start] + before + text[start..end] + after + text[end..];
    assert r[..start] == text[..start];
    assert r[start..start + |before|] == before;
    assert r[start + |before|..end + |before|] == text[start..end];
    assert r[end + |before|..end + |before| + |after|] == after;
    assert r[end + |before| + |after|..] == text[end..];
    r
  }

  /** Dropping the added marks gives the text back. */
  lemma Unwrap(text: string, start: nat, end: nat, before: string, after: string)
    requires start <= end <= |text|
    ensures var r := Wrapped(text, start, end, before, after);
      r[..start] + r[start + |before|..end + |before|] + r[end + |before| + |after|..] == text
  {
    assert text == text[..start] + text[start..end] + text[end..];
  }

  /** `content.slice(0, pos) + text + content.slice(pos)` */
  function Inserted(content: string, pos: nat, text: string): (r: string)
    requires pos <= |content|
    ensures |r| == |content| + |text|
    ensures r[..pos] == content[..pos] && r[pos..pos + |text|] == text && r[pos + |text|..] == content[pos..]
  {
    var r := content[..pos] + text + content[pos..];
    assert r[..pos] == content[..pos];
    assert r[pos..pos + |text|] == text;
    assert r[pos + |text|..] == content[pos..];
    r
  }

  /** Removing the inserted text restores the original. */
  lemma RemoveInserted(content: string, pos: nat, text: string)
    requires pos <= |content|
    ensures var r := Inserted(content, pos, text); r[..pos] + r[pos + |text|..] == content
  {
    assert content == content[..pos] + content[pos..];
  }

  /** Inserting at the start of a selection keeps the selected text: it is
      a wrap of the empty selection, not a replacement. */
  lemma InsertKeepsSelection(content: string, start: nat, end: nat, text: string)
    requires start <= end <= |content|
    ensures Inserted(content, start, text) == Wrapped(content, start, start, text, "")
    ensures Inserted(content, start, text)[start + |text|..end + |text|] == content[start..end]
  {
    var r := Inserted(content, start, text);
    assert r[start + |text|..] == content[start..];
    assert r[start + |text|..][..end - start] == r[start + |text|..end + |text|];
    assert content[start..][..end - start] == content[start..end];
    var w := Wrapped(content, start, start, text, "");
    assert |w| == |r|;
    forall i | 0 <= i < |r| ensures r[i] == w[i] {
      if i < start {
        assert r[i] == r[..start][i] && w[i] == w[..start][i];
      } else if i < start + |text| {
        assert r[i] == r[start..start + |text|][i - start] && w[i] == w[start..start + |text|][i - start];
      } else {
        assert r[i] == r[start + |text|..][i - start - |text|] && w[i] == w[start + |text|..][i - start - |text|];
      }
    }
  }

  // ----- the textarea -----

  /** The textarea's text, its selection and whether the preview mode is on. */
  datatype EditorState = EditorState(value: string, start: nat, end: nat, preview: bool)

  /** A textarea's selection lies within its text. */
  predicate ValidState(s: EditorState) {
    s.start <= s.end <= |s.value|
  }

  /** Assigning `value`: a changed text moves the cursor to its end, an
      unchanged one keeps the selection (the HTML standard's value setter
      for text controls). */
  function SetValue(s: EditorState, v: string): (r: EditorState)
    ensures ValidState(s) ==> ValidState(r)
    ensures r.value == v && r.preview == s.preview
  {
    if v != s.value then s.(value := v, start := |v|, end := |v|) else s
  }

  /** `wrapText(before, after)` */
  function WrapState(s: EditorState, before: string, after: string): (r: EditorState)
    requires ValidState(s)
    ensures ValidState(r) && r.preview == s.preview
    ensures r.value == Wrapped(s.value, s.start, s.end, before, after)
  {
    SetValue(s, Wrapped(s.value, s.start, s.end, before, after))
  }

  /** `insertText(text)`: at `selectionStart`. */
  function InsertState(s: EditorState, text: string): (r: EditorState)
    requires ValidState(s)
    ensures ValidState(r) && r.preview == s.preview
    ensures r.value == Inserted(s.value, s.start, text)
  {
    SetValue(s, Inserted(s.value, s.start, text))
  }

  // ----- uploads -----

  /** A file of a drop or of the file picker: its name and MIME type. */
  datatype File = File(name: string, mime: string)

  /** The upload request's outcome: the stored path, or a failed request
      (a response that is not ok, or a failed fetch). */
  datatype UploadResponse = UploadOk(path: string) | UploadFailed

  /** `![${file.name}](${path})` */
  function ImageMarkdown(name: string, path: string): string {
    "![" + name + "](" + path + ")"
  }

  /** `uploadImage(file)`: the link at the cursor after an ok response; a
      failure is reported and leaves the text alone. */
  function Upload(s: EditorState, name: string, response: UploadResponse): (r: EditorState)
    requires ValidState(s)
    ensures ValidState(r)
    ensures response.UploadFailed? ==> r == s
    ensures response.UploadOk? ==> r.value == Inserted(s.value, s.start, ImageMarkdown(name, response.path))
  {
    match response
    case UploadFailed => s
    case UploadOk(path) => InsertState(s, ImageMarkdown(name, path))
  }

  /** After an image is inserted the cursor sits right after it, at the end of the text. */
  lemma UploadMovesCursor(s: EditorState, name: string, path: string)
    requires ValidState(s)
    ensures var r := Upload(s, name, UploadOk(path));
      r.start == r.end == |r.value| && |r.value| == |s.value| + |ImageMarkdown(name, path)|
  {
    var md := ImageMarkdown(name, path);
    assert md[0] == '!';
    var v := Inserted(s.value, s.start, md);
    assert |v| != |s.value|;
  }

  /** The `for ... of` loop: one upload after another, in order. */
  function UploadAll(s: EditorState, files: seq<File>, responses: seq<UploadResponse>): (r: EditorState)
    requires ValidState(s) && |files| == |responses|
    ensures ValidState(r) && r.preview == s.preview
    decreases |files|
  {
    if files == [] then s
    else
      var n := |files| - 1;
      var last := UploadAll(s, files[..n], responses[..n]);
      Upload(last, files[n].name, responses[n])
  }

  /** When every upload fails nothing changes. */
  lemma {:induction false} UploadAllFailed(s: EditorState, files: seq<File>, responses: seq<UploadResponse>)
    requires ValidState(s) && |files| == |responses|
    requires forall k :: 0 <= k < |responses| ==> responses[k] == UploadFailed
    ensures UploadAll(s, files, responses) == s
    decreases |files|
  {
    if files != [] {
      var n := |files| - 1;
      UploadAllFailed(s, files[..n], responses[..n]);
    }
  }

  /** The total length of the links of the ok uploads. */
  function AddedLength(files: seq<File>, responses: seq<UploadResponse>): nat
    requires |files| == |responses|
    decreases |files|
  {
    if files == [] then 0
    else
      var n := |files| - 1;
      AddedLength(files[..n], responses[..n])
      + (if responses[n].UploadOk? then |ImageMarkdown(files[n].name, responses[n].path)| else 0)
  }

  /** The text grows by the links of exactly the ok uploads. */
  lemma {:induction false} UploadAllLength(s: EditorState, files: seq<File>, responses: seq<UploadResponse>)
    requires ValidState(s) && |files| == |responses|
    ensures |UploadAll(s, files, responses).value| == |s.value| + AddedLength(files, responses)
    decreases |files|
  {
    if files != [] {
      var n := |files| - 1;
      UploadAllLength(s, files[..n], responses[..n]);
    }
  }

  /** `file.type.startsWith('image/')` */
  predicate IsImage(f: File) {
    StartsWith(f.mime, "image/")
  }

  /** The drop handler's `filter`: the images, in their order. */
  function ImageFiles(files: seq<File>): (r: seq<File>)
    ensures |r| <= |files|
    decreases |files|
  {
    if files == [] then []
    else
      var n := |files| - 1;
      ImageFiles(files[..n]) + (if IsImage(files[n]) then [files[n]] else [])
  }

  /** The filter keeps exactly the images. */
  lemma {:induction false} ImageFilesMembers(files: seq<File>)
    ensures forall f :: f in ImageFiles(files) <==> f in files && IsImage(f)
    decreases |files|
  {
    if files != [] {
      var n := |files| - 1;
      ImageFilesMembers(files[..n]);
      assert files == files[..n] + [files[n]];
    }
  }

  /** The filter keeps the images' order: it is the images of the first
      files, then those of the rest. */
  lemma {:induction false} ImageFilesAppend(xs: seq<File>, ys: seq<File>)
    ensures ImageFiles(xs + ys) == ImageFiles(xs) + ImageFiles(ys)
    decreases |ys|
  {
    if ys == [] {
      assert xs + ys == xs;
    } else {
      var n := |ys| - 1;
      var all := xs + ys;
      var tail := if IsImage(ys[n]) then [ys[n]] else [];
      assert ImageFiles(all) == ImageFiles(xs + ys[..n]) + tail by {
        assert all[..|all| - 1] == xs + ys[..n] && all[|all| - 1] == ys[n];
      }
      ImageFilesAppend(xs, ys[..n]);
      Assoc(ImageFiles(xs), ImageFiles(ys[..n]), tail);
    }
  }

  lemma Assoc(a: seq<File>, b: seq<File>, c: seq<File>)
    ensures (a + b) + c == a + (b + c)
  {
  }

  // ----- the toolbar -----

  /** What a toolbar button does to the editor. */
  datatype Action = Wrap(before: string, after: string) | Insert(text: string) | TogglePreview | NoAction

  /** The `actions` table; `url` is the answer to the button's `prompt`
      (`None` when it was cancelled). A missing `data-action`, an unknown
      action, and a link or image with no url do nothing. */
  function ToolbarAction(action: string, url: Option<string>): (r: Action)
    ensures r.Wrap? <==> action in ["bold", "italic", "code"] || (action == "link" && url.Some? && url.value != "")
    ensures r.Wrap? && action != "link" ==> r.before == r.after && r.before in ["**", "_", "`"]
    ensures r.Wrap? && action == "link" ==> url.Some? && r == Wrap("[", "](" + url.value + ")")
    ensures r.Insert? <==> action == "image" && url.Some? && url.value != ""
    ensures r.Insert? ==> r.text == "![](" + url.value + ")"
    ensures r.TogglePreview? <==> action == "preview"
    ensures r.NoAction? <==> (action !in ["bold", "italic", "link", "image", "code", "preview"]
      || ((action == "link" || action == "image") && (url.None? || url.value == "")))
  {
    if action == "bold" then Wrap("**", "**")
    else if action == "italic" then Wrap("_", "_")
    else if action == "code" then Wrap("`", "`")
    else if action == "link" then (if url.Some? && url.value != "" then Wrap("[", "](" + url.value + ")") else NoAction)
    else if action == "image" then (if url.Some? && url.value != "" then Insert("![](" + url.value + ")") else NoAction)
    else if action == "preview" then TogglePreview
    else NoAction
  }

  /** The effect of an action. */
  function Apply(s: EditorState, a: Action): (r: EditorState)
    requires ValidState(s)
    ensures ValidState(r)
    ensures a.TogglePreview? ==> r == s.(preview := !s.preview)
    ensures a.NoAction? ==> r == s
  {
    match a
    case Wrap(before, after) => WrapState(s, before, after)
    case Insert(text) => InsertState(s, text)
    case TogglePreview => s.(preview := !s.preview)
    case NoAction => s
  }

  /** Bold, italic and code surround the selection with their marks; the
      selected text itself is kept. */
  lemma MarkedSelection(s: EditorState, action: string, url: Option<string>)
    requires ValidState(s) && (action == "bold" || action == "italic" || action == "code")
    ensures var a := ToolbarAction(action, url);
      var r := Apply(s, a);
      && a.Wrap? && a.before == a.after && |a.before| >= 1
      && r.value[s.start + |a.before|..s.end + |a.before|] == s.value[s.start..s.end]
      && |r.value| == |s.value| + 2 * |a.before|
  {
  }

  /** A link keeps the selection as its text and puts the url after it. */
  lemma LinkSelection(s: EditorState, url: string)
    requires ValidState(s) && url != ""
    ensures var r := Apply(s, ToolbarAction("link", Some(url)));
      && r.value[s.start..s.start + 1] == "["
      && r.value[s.start + 1..s.end + 1] == s.value[s.start..s.end]
      && r.value[s.end + 1..s.end + 3 + |url| + 1] == "](" + url + ")"
  {
  }

  // ----- the editor object -----

  /** The textarea behind `this.editor` and the editor container's preview mode. */
  class Editor {
    var value: string
    var selectionStart: nat
    var selectionEnd: nat
    var previewMode: bool

    ghost predicate Valid()
      reads this
    {
      selectionStart <= selectionEnd <= |value|
    }

    function State(): EditorState
      reads this
    {
      EditorState(value, selectionStart, selectionEnd, previewMode)
    }

    constructor(text: string, start: nat, end: nat)
      requires start <= end <= |text|
      ensures Valid() && State() == EditorState(text, start, end, false)
    {
      value := text;
      selectionStart := start;
      selectionEnd := end;
      previewMode := false;
    }

    /** Stores a new state of the textarea. */
    method SetState(s: EditorState)
      requires ValidState(s)
      modifies this
      ensures Valid() && State() == s
    {
      value := s.value;
      selectionStart := s.start;
      selectionEnd := s.end;
      previewMode := s.preview;
    }

    method WrapText(before: string, after: string)
      requires Valid()
      modifies this
      ensures Valid() && State() == WrapState(old(State()), before, after)
    {
      var start := selectionStart;
      var end := selectionEnd;
      var text := value;
      var selected := text[start..end];
      var next := text[..start] + before + selected + after + text[end..];
      SetState(SetValue(State(), next));
    }

    method InsertText(text: string)
      requires Valid()
      modifies this
      ensures Valid() && State() == InsertState(old(State()), text)
    {
      var pos := selectionStart;
      var content := value;
      SetState(SetValue(State(), content[..pos] + text + content[pos..]));
    }

    /** `togglePreview()`: the container's `preview-mode` class. */
    method TogglePreviewMode()
      requires Valid()
      modifies this
      ensures Valid() && State() == old(State()).(preview := !old(previewMode))
    {
      previewMode := !previewMode;
    }

    method UploadImage(file: File, response: UploadResponse)
      requires Valid()
      modifies this
      ensures Valid() && State() == Upload(old(State()), file.name, response)
    {
      match response {
        case UploadFailed =>
        case UploadOk(path) =>
          InsertText(ImageMarkdown(file.name, path));
      }
    }

    /** The toolbar's click handler. */
    method ToolbarClick(action: string, url: Option<string>)
      requires Valid()
      modifies this
      ensures Valid() && State() == Apply(old(State()), ToolbarAction(action, url))
    {
      var a := ToolbarAction(action, url);
      match a {
        case Wrap(before, after) => WrapText(before, after);
        case Insert(text) => InsertText(text);
        case TogglePreview => TogglePreviewMode();
        case NoAction =>
      }
    }

    /** The file picker's `onchange`: every chosen file, in order. */
    method UploadFiles(files: seq<File>, responses: seq<UploadResponse>)
      requires Valid() && |files| == |responses|
      modifies this
      ensures Valid() && State() == UploadAll(old(State()), files, responses)
    {
      var i := 0;
      while i < |files|
        invariant 0 <= i <= |files|
        invariant Valid() && State() == UploadAll(old(State()), files[..i], responses[..i])
      {
        assert files[..i + 1][..i] == files[..i] && responses[..i + 1][..i] == responses[..i];
        UploadImage(files[i], responses[i]);
        i := i + 1;
      }
      assert files[..i] == files && responses[..i] == responses;
    }

    /** The drop zone's `drop` handler: the image files only, in order. */
    method DropFiles(files: seq<File>, responses: seq<UploadResponse>)
      requires Valid() && |ImageFiles(files)| == |responses|
      modifies this
      ensures Valid() && State() == UploadAll(old(State()), ImageFiles(files), responses)
    {
      UploadFiles(ImageFiles(files), responses);
    }
  }
}
