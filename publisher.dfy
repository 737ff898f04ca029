/** The publishing page: reading and filling the form, the validation
    guard in front of the publish call, and the per-tab list of drafts. */
module Publishing {
  import opened Optional
  import opened Strings

  const Blog: string := "blog"
  const Presentation: string := "presentation"
  /** The separator `setFormData` joins a tags array with. */
  const TagSep: string := ", "

  /** The values of the form's inputs: `title`, `description`, the two
      content editors, `category` and `tags`. */
  datatype Form = Form(
    title: string,
    description: string,
    slideContent: string,
    markdownContent: string,
    category: string,
    tags: string)

  /** What `getFormData` returns. */
  datatype FormData = FormData(
    title: string,
    description: string,
    content: string,
    category: string,
    tags: string)

  /** The object handed to `setFormData` (uploaded metadata or a listed
      item); a missing or empty field is `None` or `""`. */
  datatype Incoming = Incoming(
    title: Option<string>,
    description: Option<string>,
    content: Option<string>,
    category: Option<string>,
    tags: Option<seq<string>>)

  /** The metadata object passed to the publish API. */
  datatype Metadata = Metadata(
    title: string,
    description: string,
    category: string,
    tags: string,
    deployHook: Option<string>)

  /** One `PublisherAPI.publishContent(type, content, metadata)` call. */
  datatype PublishCall = PublishCall(kind: string, content: string, metadata: Metadata)

  /** A saved draft: the form data and its `lastSaved` time stamp. */
  datatype Draft = Draft(data: FormData, lastSaved: string)

  /** `getFormData`: the content comes from the slide editor on the
      presentation tab and from the markdown editor on any other. */
  function ReadForm(form: Form, tab: string): (d: FormData)
    ensures tab == Presentation ==> d.content == form.slideContent
    ensures tab != Presentation ==> d.content == form.markdownContent
    ensures d.title == form.title && d.description == form.description
    ensures d.category == form.category && d.tags == form.tags
  {
    FormData(
      form.title,
      form.description,
      if tab == Presentation then form.slideContent else form.markdownContent,
      form.category,
      form.tags)
  }

  /** `value || ''` */
  function OrEmpty(v: Option<string>): string {
    if v.Some? then v.value else ""
  }

  /** `data.tags ? data.tags.join(', ') : ''` */
  function TagsText(tags: Option<seq<string>>): string {
    if tags.Some? then Join(tags.value, TagSep) else ""
  }

  /** `setFormData`: every field is overwritten, with `""` for a missing
      one, and only the current tab's editor receives the content. */
  function FillForm(form: Form, tab: string, data: Incoming): (f: Form)
    ensures tab == Presentation ==> f.markdownContent == form.markdownContent
    ensures tab != Presentation ==> f.slideContent == form.slideContent
  {
    var content := OrEmpty(data.content);
    Form(
      OrEmpty(data.title),
      OrEmpty(data.description),
      if tab == Presentation then content else form.slideContent,
      if tab == Presentation then form.markdownContent else content,
      OrEmpty(data.category),
      TagsText(data.tags))
  }

  /** Reading the form back on the same tab gives the filled-in values. */
  lemma FillThenRead(form: Form, tab: string, data: Incoming)
    ensures ReadForm(FillForm(form, tab, data), tab)
         == FormData(OrEmpty(data.title), OrEmpty(data.description), OrEmpty(data.content),
                     OrEmpty(data.category), TagsText(data.tags))
  {
  }

  /** The tags text splits back into the array it was joined from, as long
      as no tag holds `", "` and no tag but the last ends in `,` or a space. */
  lemma TagsRoundTrip(tags: seq<string>)
    requires |tags| >= 1
    requires forall k :: 0 <= k < |tags| - 1 ==> Clean(tags[k], TagSep)
    requires !Contains(tags[|tags| - 1], TagSep)
    ensures Split(TagsText(Some(tags)), TagSep) == tags
  {
    SplitJoin(tags, TagSep);
  }

  /** `validateForm`: the JavaScript value of `data.title && data.content`. */
  function ValidateForm(data: FormData): (r: string)
    ensures r != "" <==> data.title != "" && data.content != ""
    ensures r == "" || r == data.content
  {
    if data.title == "" then data.title else data.content
  }

  /** The API call `publishContent` makes, or `None` when validation fails;
      the tags go through as the raw text of the input. */
  function PublishCallOf(tab: string, data: FormData, hook: Option<string>): (r: Option<PublishCall>)
    ensures r.None? <==> data.title == "" || data.content == ""
    ensures r.Some? ==> r.value.kind == tab && r.value.content == data.content
    ensures r.Some? ==> r.value.metadata == Metadata(data.title, data.description, data.category, data.tags, hook)
  {
    if ValidateForm(data) == "" then None
    else Some(PublishCall(tab, data.content, Metadata(data.title, data.description, data.category, data.tags, hook)))
  }

  /** On the presentation tab the published content is the slide editor's,
      whatever the markdown editor holds, and the reverse on the others. */
  lemma PublishedContentFromTab(form: Form, tab: string, hook: Option<string>)
    requires PublishCallOf(tab, ReadForm(form, tab), hook).Some?
    ensures tab == Presentation ==> PublishCallOf(tab, ReadForm(form, tab), hook).value.content == form.slideContent != ""
    ensures tab != Presentation ==> PublishCallOf(tab, ReadForm(form, tab), hook).value.content == form.markdownContent != ""
    ensures form.title != ""
  {
  }

  /** Filling the form from incoming data and publishing at once calls the
      API exactly when a title and a content arrived. */
  lemma PublishAfterFill(form: Form, tab: string, data: Incoming, hook: Option<string>)
    ensures PublishCallOf(tab, ReadForm(FillForm(form, tab, data), tab), hook).Some?
        <==> OrEmpty(data.title) != "" && OrEmpty(data.content) != ""
  {
    FillThenRead(form, tab, data);
  }

  /** `clearForm`: `reset()` restores the inputs' default values, then the
      current tab's editor is emptied. */
  function ClearedForm(defaults: Form, tab: string): (f: Form)
    ensures ReadForm(f, tab).content == ""
    ensures f.title == defaults.title && f.description == defaults.description
    ensures f.category == defaults.category && f.tags == defaults.tags
    ensures tab == Presentation ==> f.markdownContent == defaults.markdownContent
    ensures tab != Presentation ==> f.slideContent == defaults.slideContent
  {
    if tab == Presentation then defaults.(slideContent := "") else defaults.(markdownContent := "")
  }

  /** The drafts already stored for `tab`, `[]` when there are none. */
  function Prior(drafts: map<string, seq<Draft>>, tab: string): seq<Draft> {
    if tab in drafts then drafts[tab] else []
  }

  /** `saveDraft`'s update of the stored dictionary: the list for `tab` is
      created when absent and the new draft is put in front of it. */
  function SavedDrafts(drafts: map<string, seq<Draft>>, tab: string, d: Draft): (r: map<string, seq<Draft>>)
    ensures r.Keys == drafts.Keys + {tab}
    ensures |r[tab]| == |Prior(drafts, tab)| + 1
    ensures r[tab][0] == d && r[tab][1..] == Prior(drafts, tab)
    ensures forall k :: k in drafts && k != tab ==> r[k] == drafts[k]
  {
    var list := [d] + Prior(drafts, tab);
    assert list[1..] == Prior(drafts, tab);
    drafts[tab := list]
  }

  /** Drafts saved one after another on one tab, oldest first. */
  function SaveAll(drafts: map<string, seq<Draft>>, tab: string, ds: seq<Draft>): map<string, seq<Draft>>
    decreases |ds|
  {
    if |ds| == 0 then drafts
    else SavedDrafts(SaveAll(drafts, tab, ds[..|ds| - 1]), tab, ds[|ds| - 1])
  }

  /** The drafts last to first. */
  function Reversed(s: seq<Draft>): seq<Draft>
    decreases |s|
  {
    if |s| == 0 then [] else [s[|s| - 1]] + Reversed(s[..|s| - 1])
  }

  /** `Reversed` puts the `i`-th from last draft at index `i`. */
  lemma {:induction false} ReversedAt(s: seq<Draft>)
    ensures |Reversed(s)| == |s|
    ensures forall i :: 0 <= i < |s| ==> Reversed(s)[i] == s[|s| - 1 - i]
    decreases |s|
  {
    if |s| > 0 {
      var init := s[..|s| - 1];
      ReversedAt(init);
      forall i | 0 <= i < |s| ensures Reversed(s)[i] == s[|s| - 1 - i] {
        if i > 0 {
          assert Reversed(s)[i] == Reversed(init)[i - 1];
        }
      }
    }
  }

  /** After a run of saves the tab's list holds them newest first, in front
      of the drafts it held before. */
  lemma {:induction false} SaveAllNewestFirst(drafts: map<string, seq<Draft>>, tab: string, ds: seq<Draft>)
    ensures |ds| > 0 ==> tab in SaveAll(drafts, tab, ds)
    ensures Prior(SaveAll(drafts, tab, ds), tab) == Reversed(ds) + Prior(drafts, tab)
    decreases |ds|
  {
    if |ds| > 0 {
      var init := ds[..|ds| - 1];
      var last := ds[|ds| - 1];
      var before := SaveAll(drafts, tab, init);
      var rest := Prior(drafts, tab);
      assert Prior(before, tab) == Reversed(init) + rest by {
        SaveAllNewestFirst(drafts, tab, init);
      }
      assert tab in SaveAll(drafts, tab, ds) && Prior(SaveAll(drafts, tab, ds), tab) == [last] + Prior(before, tab) by {
        assert SaveAll(drafts, tab, ds) == SavedDrafts(before, tab, last);
      }
      assert Reversed(ds) == [last] + Reversed(init) by {
        assert ds[..|ds| - 1] == init;
      }
      assert [last] + (Reversed(init) + rest) == ([last] + Reversed(init)) + rest;
    }
  }

  /** A run of saves on one tab leaves every other tab as it was. */
  lemma {:induction false} SaveAllOthers(drafts: map<string, seq<Draft>>, tab: string, ds: seq<Draft>, k: string)
    requires k != tab
    ensures k in SaveAll(drafts, tab, ds) <==> k in drafts
    ensures k in drafts ==> SaveAll(drafts, tab, ds)[k] == drafts[k]
    decreases |ds|
  {
    if |ds| > 0 {
      SaveAllOthers(drafts, tab, ds[..|ds| - 1], k);
    }
  }

  /** The publishing page's state: the selected tab, the form, and the
      drafts dictionary kept in local storage. */
  class Publisher {
    var currentTab: string
    var form: Form
    var drafts: map<string, seq<Draft>>

    /** The page opens on the blog tab. */
    constructor(initial: Form, stored: map<string, seq<Draft>>)
      ensures currentTab == Blog && form == initial && drafts == stored
    {
      currentTab := Blog;
      form := initial;
      drafts := stored;
    }

    function GetFormData(): FormData
      reads this
    {
      ReadForm(form, currentTab)
    }

    /** `switchTab`: selects the tab; the form and the drafts stay. */
    method SwitchTab(kind: string)
      modifies this
      ensures currentTab == kind
      ensures form == old(form) && drafts == old(drafts)
    {
      currentTab := kind;
    }

    method SetFormData(data: Incoming)
      modifies this
      ensures form == FillForm(old(form), currentTab, data)
      ensures currentTab == old(currentTab) && drafts == old(drafts)
      ensures GetFormData() == FormData(OrEmpty(data.title), OrEmpty(data.description), OrEmpty(data.content),
                                        OrEmpty(data.category), TagsText(data.tags))
    {
      form := FillForm(form, currentTab, data);
      FillThenRead(old(form), currentTab, data);
    }

    /** `publishContent`: returns the API call made, if any. `hook` is the
        stored deploy hook, `succeeded` whether the call resolved, and
        `defaults` the inputs' default values that `reset()` restores. The
        form is cleared only after a successful call. */
    method PublishContent(hook: Option<string>, succeeded: bool, defaults: Form) returns (call: Option<PublishCall>)
      modifies this
      ensures call == PublishCallOf(currentTab, old(GetFormData()), hook)
      ensures call.Some? && succeeded ==> form == ClearedForm(defaults, currentTab)
      ensures call.None? || !succeeded ==> form == old(form)
      ensures currentTab == old(currentTab) && drafts == old(drafts)
    {
      var data := GetFormData();
      if ValidateForm(data) == "" {
        return None;
      }
      call := Some(PublishCall(currentTab, data.content,
                               Metadata(data.title, data.description, data.category, data.tags, hook)));
      if succeeded {
        form := ClearedForm(defaults, currentTab);
      }
    }

    /** `saveDraft`: `now` is the ISO time stamp of the save. */
    method SaveDraft(now: string)
      modifies this
      ensures drafts == SavedDrafts(old(drafts), currentTab, Draft(GetFormData(), now))
      ensures currentTab == old(currentTab) && form == old(form)
    {
      drafts := SavedDrafts(drafts, currentTab, Draft(GetFormData(), now));
    }
  }
}
