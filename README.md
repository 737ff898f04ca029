# blog-publisher, modelled in Dafny

This project models the logic of a small self-hosted publishing tool for blog
posts and Marp slide decks. It has four groups:

- **Polling watcher and sync rules.** `FileWatcher` keeps a map from a file's
  path to its last modification time. Every scan diffs a directory listing
  against that record and fires `add`, `change` or `unlink` to the registered
  handlers. `FileProcessor` turns those events into store calls. It reads the
  front matter, or falls back to defaults taken from the file name, and it
  derives slugs.
- **Content store.** These are the four tables of the initial migration
  (`posts`, `tags`, `post_tags`, `images`) and the queries over them in
  `server/db/index.js`. `createPost` and `updatePost` are transactions that
  either happen completely or not at all. They share one tag-resolution step:
  insert the missing names, then link the post to every requested name.
  `listPosts` filters, orders newest first and pages.
- **Front-matter text.**
  - The browser serialiser (`PostCreator`) writes front matter.
  - The browser loader (`FileLoader.parseMarkdown`) reads it back.
  - The publish route of the server builds the slug, the `{date}-{slug}.md`
    file name, the front-matter text and the target directory.
  - The listing route builds the excerpt.
  - The watcher parses the front matter the route wrote.
- **Small utilities.**
  - The Marp layout builders split on `||`.
  - The editor splices text at the selection, and its toolbar has an action table.
  - The Marp preview has title extraction and slide navigation.
  - The publishing page validates the form and keeps per-tab draft lists.

The model is written in the form the source takes. Objects whose fields the
source updates in place are classes with `modifies` clauses, and loops are
methods with invariants. Each such method is proved equal to a specification
function; the properties are then proved about that function. The classes are:

- `FileWatcher.Watcher`;
- `ContentStore.Store`, whose class invariant is the migration's constraints;
- `Editing.Editor`;
- `Publishing.Publisher`;
- `FileProcessor.Processor`.

One module per source file:

| file | module | source |
|---|---|---|
| `strings.dfy` | `Strings` | the JavaScript string built-ins the source uses (`split`, `join`, `trim`, `indexOf`, `replace`, `toLowerCase`) |
| `file_watcher.dfy` | `FileWatcher` | `js/fileWatcher.js`, class `FileWatcher` |
| `file_processor.dfy` | `FileProcessor` | `js/fileWatcher.js`, class `FileProcessor` |
| `schema.dfy` | `Schema` | `server/db/migrations/20250223_initial_schema.js` |
| `content_store.dfy` | `ContentStore` | `server/db/index.js` |
| `create_post.dfy` | `PostCreator` | `js/createPost.js` |
| `file_loader.dfy` | `FileLoader` | `js/fileLoader.js` |
| `round_trip.dfy` | `RoundTrip` | `js/createPost.js` written, then `js/fileLoader.js` read |
| `server.dfy` | `Server` | `server/server.js` |
| `marp_styles.dfy` | `MarpStyles` | `js/marpStyles.js` |
| `editor.dfy` | `Editing` | `js/editor.js` |
| `marp_preview.dfy` | `MarpPreview` | `js/marpPreview.js` |
| `publisher.dfy` | `Publishing` | `js/publisher.js` |
| `optional.dfy` | `Optional` | the `Option` type |

Inputs the source reads from outside become parameters:

- Directory listing: `Listing`.
- The text `readFile` returned: `read`.
- Handlers: `HandlerId`, with the set of throwing handlers as `failing`.
- The clock: `now`, `date`, `isoTimestamp`.
- Responses of `fetch` and of the file write: `writeOk`, `hookOk`, `UploadResponse`, `succeeded`.
- `prompt` answers: `url`.
- The viewport: `visible`.
- `localStorage`: the `drafts` map and the `hook` string.
- `form.reset()` defaults: `defaults`.

Where the code and the repository's design description disagree, the model
follows the code:

- **Tag collisions.** A request naming a new tag twice violates the unique tag
  name. The whole transaction then fails, rather than treating the collision as
  an existing tag.
- **A throwing handler.** It ends the scan with an `error` event; other files
  are not processed. `processFile` wraps its work in `try`/`catch` and only
  logs, so none of its runs rejects. It follows that a handler `FileProcessor`
  registered cannot be one that throws, and a scan with those handlers is never
  cut short.
- **Quoted scalars.** The browser loader is not the inverse of the browser
  serialiser: scalar values come back still wrapped in their `"` quotes.
- **Publish slugs.** The publish route does not trim edge hyphens, so
  `Hello World!` becomes `hello-world-`.
- **Publish and the store.** The publish route writes a file and calls the hook
  only. It keeps no database row and no `file_path`.
- **Images.** `images.post_id` may be null.
- **Updating a missing post.** `updatePost` of a missing slug fails, because
  knex throws on `where({ post_id: undefined })`. `deletePost` of a missing
  slug deletes nothing and reports 0, with no not-found error.
- **Titles.** `extractTitle` gives `Untitled Presentation` for some content
  that does contain `# `. This happens when the heading line ends in `\r`,
  U+2028 or U+2029 (see Findings).

## Model

| member | source | states |
|---|---|---|
| FileWatcher.Watcher.constructor | js/fileWatcher.js:2-11 | a new watcher has an empty record, no handlers, is not watching; the interval is the option when given, else 5000 |
| FileWatcher.Watcher.Start | js/fileWatcher.js:13-18 | a no-op while watching; otherwise sets watching, runs exactly one scan (the record and the calls are the scan's) and schedules polling only when that scan did not reject |
| FileWatcher.Watcher.Stop | js/fileWatcher.js:20-24 | afterwards not watching and no timer; record and handlers unchanged |
| FileWatcher.Watcher.On | js/fileWatcher.js:26-31 | the event's handler set gains the handler (set semantics), nothing else changes |
| FileWatcher.Watcher.Off | js/fileWatcher.js:33-37 | only that handler leaves that event's set; an event never registered is left alone |
| FileWatcher.Watcher.Trigger | js/fileWatcher.js:39-45 | the calls made and whether one threw are those of `Fire` on the registry |
| FileWatcher.Watcher.ScanDirectory | js/fileWatcher.js:47-73 | the new record, the calls and the rejection are exactly those of `Scan` over the old record; handlers and the watching state unchanged |
| FileWatcher.Watcher.VisitListing | js/fileWatcher.js:52-60 | the loop over the listing leaves the record and calls of `Pass1` |
| FileWatcher.Watcher.VisitFile | js/fileWatcher.js:53-59 | one turn of that loop is `Step1` |
| FileWatcher.Watcher.VisitRecord | js/fileWatcher.js:63-68 | the loop over the record leaves the record and calls of `Pass2` on the record as it stood after the first loop |
| FileWatcher.Paths | js/fileWatcher.js:63 | the paths of the record in its insertion order |
| FileWatcher.ViewKeys | js/fileWatcher.js:54 | a path is known to the map exactly when some entry has it |
| FileWatcher.SetTime | js/fileWatcher.js:59 | `Map.set`: a known path keeps its position, a new path is appended |
| FileWatcher.SetTimeView | js/fileWatcher.js:59 | seen as a map, `set` updates exactly one key |
| FileWatcher.SetTimeDistinct | js/fileWatcher.js:59 | `set` never creates a second entry for a path |
| FileWatcher.Delete | js/fileWatcher.js:66 | `Map.delete` never lengthens the record |
| FileWatcher.DeleteView | js/fileWatcher.js:66 | seen as a map, `delete` removes exactly one key |
| FileWatcher.DeleteKeeps | js/fileWatcher.js:66 | every remaining entry was there before and none is for the deleted path |
| FileWatcher.DeleteDistinct | js/fileWatcher.js:66 | `delete` keeps the paths distinct |
| FileWatcher.AddOnce | js/fileWatcher.js:30 | `Set.add`: the members become the old ones plus the handler; a present handler keeps its place, a new one goes last |
| FileWatcher.Remove | js/fileWatcher.js:35 | `Set.delete`: only that handler goes; an absent handler changes nothing |
| FileWatcher.AddOnceIdempotent | js/fileWatcher.js:26-31 | registering the same handler twice counts once |
| FileWatcher.RemoveAddOnce | js/fileWatcher.js:26-37 | `off` undoes an `on` of a handler that was not registered |
| FileWatcher.DeliverOrder | js/fileWatcher.js:39-45 | handlers are called in registration order, each once; the trigger rejects exactly when some handler throws, and the first throwing handler is the last one called |
| FileWatcher.FireQuiet | js/fileWatcher.js:39-45 | with no throwing handler every handler of the event is called once, in order; an event without handlers calls nothing |
| FileWatcher.AllCalls | js/fileWatcher.js:41-43 | one call per handler, in order, with the event's data |
| FileWatcher.CallsForAppend | js/fileWatcher.js:52-68 | the calls of two event sequences in a row are the calls of each, concatenated |
| FileWatcher.Decide | js/fileWatcher.js:54-58 | an unknown path fires exactly one `add`; a known path fires `change` iff its new time is strictly greater; otherwise nothing |
| FileWatcher.Gone | js/fileWatcher.js:63-64 | the recorded paths that the listing lacks |
| FileWatcher.Pass1Quiet | js/fileWatcher.js:52-60 | with no throwing handler the first loop records every listed time (even an equal or older one) and fires the `add`/`change` events of the listing |
| FileWatcher.Pass2Quiet | js/fileWatcher.js:63-68 | with no throwing handler the second loop deletes every unlisted path and fires one `unlink` for each, in record order |
| FileWatcher.UnlinksRecord | js/fileWatcher.js:59-64 | recording listed paths changes no `unlink` event |
| FileWatcher.ScanQuiet | js/fileWatcher.js:47-68 | a scan in which no handler throws keeps exactly the listed entries of the updated record and makes the calls of the `add`/`change` events, then of the `unlink` events, without rejecting |
| FileWatcher.RecordView | js/fileWatcher.js:52-60 | recording a listing adds exactly the listed paths, keeps unlisted times, and gives each listed path the time of its last listing entry |
| FileWatcher.KeptView | js/fileWatcher.js:63-68 | keeping the listed entries restricts the map to the listed paths and keeps their times |
| FileWatcher.ScanRecord | js/fileWatcher.js:47-68 | after a scan in which no handler throws, the record's keys are exactly the listed paths, each with its listed time |
| FileWatcher.EventsAgainstOld | js/fileWatcher.js:52-58 | in a listing without repeated paths each file's event depends only on the record before the scan |
| FileWatcher.UnlinksAt | js/fileWatcher.js:63-66 | the second loop's events are all `unlink { path }`, one for each recorded entry that is not listed |
| FileWatcher.UnlinksExactly | js/fileWatcher.js:62-68 | the `unlink` events name exactly the previously recorded paths that are not listed |
| FileWatcher.ScanListingFailed | js/fileWatcher.js:69-72 | a listing that cannot be fetched leaves the record unchanged and only fires `error` |
| FileWatcher.Pass1Stops | js/fileWatcher.js:48-72 | once a handler has thrown in the first loop nothing else happens in it |
| FileWatcher.Pass2Stops | js/fileWatcher.js:48-72 | once a handler has thrown in the second loop nothing else happens in it |
| FileProcessor.Processor.constructor | js/fileWatcher.js:87-96 | `setupHandlers` leaves exactly one handler each for `add`, `change` and `unlink` on a watcher that had none; the record and the watching state are unchanged |
| FileProcessor.RegistryFromEmpty | js/fileWatcher.js:92-96 | three `on` calls on an empty registry give the processor's registry |
| FileProcessor.CallsForRegistry | js/fileWatcher.js:93-95 | through that registry each event makes the `processFile` call of its action, and `error` makes none |
| FileProcessor.TryProcess | js/fileWatcher.js:99-115 | the `try` block sends the request `processFile` decides on, and fails exactly when the read fails (add, change) or the request does |
| FileProcessor.RunProcessFile | js/fileWatcher.js:98-119 | `try`/`catch` together: the request sent, an error logged exactly when the read or the request failed, and the promise never rejects |
| FileProcessor.ProcessorScan | js/fileWatcher.js:92-119 | if the throwing handlers are only those whose `processFile` run can reject (`FailingFromRuns`), none of the three registered handlers is among them, so a scan with the processor's handlers never rejects: it keeps the listed record and makes one `processFile` call per event |
| FileProcessor.ProcessFile | js/fileWatcher.js:98-119 | a delete calls `deletePost` with the file-name slug without reading; add and change call create/update with the text read and its metadata; add passes `metadata.type`; a failed read makes no call |
| FileProcessor.FrontMatterBlock | js/fileWatcher.js:143 | `^---\n([\s\S]*?)\n---`: a match is a prefix of the content, and the group is the shortest that reaches `\n---`; there is no match iff the content does not start with `---\n` or has no later `\n---` |
| FileProcessor.FirstOccurrenceFree | js/fileWatcher.js:143 | before the first occurrence of a pattern there is none, even overlapping into it (the lazy group) |
| FileProcessor.BlockOf | js/fileWatcher.js:143-145 | conversely, a block followed by its first `\n---` is matched as that block |
| FileProcessor.FieldLine | js/fileWatcher.js:147-151 | a line `key:value` whose key is non-empty and free of `:` sets the trimmed key to the rest, which keeps later `:` characters, trimmed |
| FileProcessor.FieldLineSkipped | js/fileWatcher.js:148-149 | a line without `:`, or with an empty key, sets nothing |
| FileProcessor.Defaults | js/fileWatcher.js:133-139 | the defaults are text except `tags` |
| FileProcessor.DefaultKeys | js/fileWatcher.js:133-139 | the defaults hold the file-name title and no slug |
| FileProcessor.DefaultsOf | js/fileWatcher.js:133-139 | every default other than `tags` is text |
| FileProcessor.DefaultKeysOf | js/fileWatcher.js:133-139 | the defaults hold the given title under `title` and no `slug` |
| FileProcessor.AsText | js/fileWatcher.js:150 | the parsed fields as string values, key for key |
| FileProcessor.MetadataOf | js/fileWatcher.js:131-160 | the metadata keep every default key; all values but `tags` are text |
| FileProcessor.MetadataWithoutBlock | js/fileWatcher.js:143-159 | without a block at the very start the metadata are exactly the defaults |
| FileProcessor.MetadataWithBlock | js/fileWatcher.js:144-153 | with a block, each field of it overrides the default of its key, other defaults stay, and no other key appears |
| FileProcessor.ExtractMetadata | js/fileWatcher.js:131-160 | the `forEach` that fills `parsed` gives `MetadataOf` |
| FileProcessor.LastSegment | js/fileWatcher.js:163 | `split('/').pop()` holds no `/` |
| FileProcessor.LastSegmentOf | js/fileWatcher.js:163 | it is the name after the last `/` |
| FileProcessor.LastIndexOf | js/fileWatcher.js:165 | the last index of a character, or -1 |
| FileProcessor.StripExtension | js/fileWatcher.js:165 | `replace(/\.[^/.]+$/, '')` leaves the name or removes exactly one final `.ext` |
| FileProcessor.StripExtensionOf | js/fileWatcher.js:165 | the final extension is exactly what goes |
| FileProcessor.Capitalize | js/fileWatcher.js:167 | capitalising keeps the length |
| FileProcessor.CapitalizeWords | js/fileWatcher.js:167 | word starts stay word starts and are not lower-case letters afterwards; every other character is unchanged |
| FileProcessor.CapitalizeIdempotent | js/fileWatcher.js:167 | capitalising twice is capitalising once |
| FileProcessor.TitleFromFilename | js/fileWatcher.js:162-168 | the title contains no `-` and no `/` |
| FileProcessor.TitleOf | js/fileWatcher.js:162-168 | the title of `dir/base.ext` is `base` with hyphens as spaces, capitalised |
| FileProcessor.TitleExample | js/fileWatcher.js:162-168 | `dir/my-first-post.md` gets the title `My First Post` |
| FileProcessor.ContentType | js/fileWatcher.js:170-173 | `marp` iff the lower-cased path contains `marp`, else `post` |
| FileProcessor.ContentTypeIgnoresCase | js/fileWatcher.js:172 | the type does not depend on the path's case |
| FileProcessor.DropLeadingHyphens | js/fileWatcher.js:195 | `^-+` removes exactly the leading hyphens |
| FileProcessor.DropTrailingHyphens | js/fileWatcher.js:195 | `-+$` removes exactly the trailing hyphens |
| FileProcessor.SlugRulesAgree | js/fileWatcher.js:191-196 | the processor's `generateSlug` equals the loader's on every title |
| FileProcessor.WatcherSlugShape | js/fileWatcher.js:191-196 | slugs use only `[a-z0-9-]`, with no doubled, leading or trailing hyphen |
| FileProcessor.WatcherSlugIdempotent | js/fileWatcher.js:191-196 | a slug is its own slug |
| FileProcessor.ChangeSlug | js/fileWatcher.js:179-182 | a change goes to `metadata.slug \|\| generateSlug(metadata.title)` |
| FileProcessor.UpdateSlug | js/fileWatcher.js:179-182 | a change uses the front-matter slug when it is non-empty, else the normalised slug of the title |
| FileProcessor.ChangeSlugWithoutBlock | js/fileWatcher.js:179-182 | without front matter a change goes to the slug of the file-name title |
| FileProcessor.DeletedSlugOf | js/fileWatcher.js:184-189 | an unlink deletes the slug that is the bare file name without its extension, not normalised |
| FileProcessor.SlugsOfOneFile | js/fileWatcher.js:179-189 | for a file without front matter whose name is not already a slug, the slug a change updates differs from the slug an unlink deletes |
| Schema.PostIdUnique | server/db/migrations/20250223_initial_schema.js:4 | `increments` ids are unique: equal ids are the same row |
| Schema.LinksWithoutPost | server/db/migrations/20250223_initial_schema.js:20 | the post cascade removes exactly the post's links |
| Schema.LinksWithoutTag | server/db/migrations/20250223_initial_schema.js:21 | the tag cascade removes exactly the tag's links |
| Schema.ImagesWithoutPost | server/db/migrations/20250223_initial_schema.js:26 | the image cascade removes exactly the post's images |
| Schema.ImagesWithoutPostAscend | server/db/migrations/20250223_initial_schema.js:24-26 | the images left keep their order, so their ids still ascend |
| Schema.RemovePostTable | server/db/migrations/20250223_initial_schema.js:3-14 | removing a post row keeps the posts constraints |
| Schema.DeletePostConsistent | server/db/migrations/20250223_initial_schema.js:19-31 | deleting a post with its cascades keeps every constraint of the schema |
| Schema.DeleteTagConsistent | server/db/migrations/20250223_initial_schema.js:15-23 | deleting a tag with its cascade keeps every constraint of the schema |
| Schema.MigrationOrder | server/db/migrations/20250223_initial_schema.js:1-40 | `up` creates each table after the tables it references, and `down` drops them in exactly the reverse order |
| ContentStore.Store.constructor | server/db/migrations/20250223_initial_schema.js:1-32 | the migrated database: empty tables, the ids starting at 1, consistent |
| ContentStore.Store.InsertPost | server/db/index.js:12 | appends the new row with the next id, or reports the broken constraint and changes nothing |
| ContentStore.Store.ResolveTags | server/db/index.js:15-41 | inserts exactly the missing names and links the post to every row with a requested name; fails without change iff a missing name repeats |
| ContentStore.Store.CreatePost | server/db/index.js:7-46 | succeeds iff the row is valid and no new name repeats; on failure nothing changes; on success one row, the missing tags and the links of the requested names are added and nothing else |
| ContentStore.Store.UpdatePost | server/db/index.js:66-115 | a missing slug fails; otherwise the columns are replaced, `updated_at` refreshed, and the post's links replaced with exactly the requested tags; all or nothing |
| ContentStore.Store.DeletePost | server/db/index.js:117-119 | at most one row goes, the one with the slug, with its links and images; tags stay |
| ContentStore.Store.AddImage | server/db/index.js:162-164 | one row with the next id, or no change when a not-null column is missing or the post does not exist |
| ContentStore.Store.GetPostImages | server/db/index.js:166-168 | exactly the images of that post |
| ContentStore.Store.DeleteImage | server/db/index.js:170-172 | only the image with that id goes |
| ContentStore.FindBy | server/db/index.js:49-51 | `.where({ column: k })`: the index of a row whose column is `k`, or none iff no row has it |
| ContentStore.FindSlug | server/db/index.js:49-51 | the index of a row with the slug, or none iff no row has it |
| ContentStore.FindUniqueSlug | server/db/index.js:49-51 | with unique slugs the lookup finds the one row that has the slug |
| ContentStore.Lookup | server/db/index.js:48-64 | `null` iff no row has the slug; otherwise that row and the names of exactly its linked tags |
| ContentStore.Missing | server/db/index.js:21-22 | exactly the requested names not yet in the tag table |
| ContentStore.TagRows | server/db/index.js:25-27 | one new row per missing name, ids counting up |
| ContentStore.LinksTo | server/db/index.js:31-41 | one link from the post to each tag row whose name was requested |
| ContentStore.TagNames | server/db/index.js:55-62 | the names of exactly the tags linked to the post |
| ContentStore.AppendTagRows | server/db/index.js:24-28 | inserting new, non-repeated names keeps the tag table's unique names and ids; existing tags stay |
| ContentStore.TagNamesNoRepeats | server/db/index.js:55-62 | a post's tag list repeats no name |
| ContentStore.ResolvedNames | server/db/index.js:15-41 | after tag resolution the post's tag names are exactly the requested ones, without repeats |
| ContentStore.RequestedLinked | server/db/index.js:31-41 | every requested name is linked afterwards |
| ContentStore.LinkedRequested | server/db/index.js:31-41 | every name linked afterwards was requested |
| ContentStore.CreateThenGet | server/db/index.js:7-64 | after `createPost`, `getPost` finds the row with exactly the requested (deduplicated) tags |
| ContentStore.UpdateThenGet | server/db/index.js:66-115 | after `updatePost`, `getPost` finds the new row with exactly the new tags: replace, not merge |
| ContentStore.OtherPostsKeepTags | server/db/index.js:80-110 | replacing one post's tags leaves every other post's tag list as it was |
| ContentStore.TagNamesSameLinks | server/db/index.js:55-62 | a post's tag list depends only on the links of that post |
| ContentStore.TagNamesAppendUnlinked | server/db/index.js:25-27 | new tag rows the post is not linked to do not change its tag list |
| ContentStore.Filtered | server/db/index.js:132-144 | exactly the rows of the type (equality) and linked to a tag of that name, each filter only when truthy |
| ContentStore.InsertNewest | server/db/index.js:130 | inserting into a newest-first list keeps it newest first and a permutation |
| ContentStore.NewestFirstOrder | server/db/index.js:130 | `orderBy('published_at', 'desc')` is newest first and a permutation of the rows |
| ContentStore.Page | server/db/index.js:146-152 | offset then limit, each only when truthy: at most `limit` rows, the rows from `offset` on, in order |
| ContentStore.Views | server/db/index.js:156-159 | each listed row, in order, with the names of exactly its linked tags |
| ContentStore.ListingSelected | server/db/index.js:121-159 | each listed post passes the filters and carries its full tag list, not only the filtered tag |
| ContentStore.ListingNewestFirst | server/db/index.js:130 | a listing is ordered by `published_at` descending |
| ContentStore.ListingComplete | server/db/index.js:121-154 | without limit or offset every selected row is listed, as often as it is in the table |
| ContentStore.ConcatenatedTagsSplitComma | server/db/index.js:125-158 | as written, the tag `a,b` is listed as the two tags `a` and `b` |
| ContentStore.ConcatenatedTagsAgree | server/db/index.js:156-159 | the `GROUP_CONCAT` reading is right when no name holds a comma and the list is not one empty name |
| ContentStore.ImagesOf | server/db/index.js:166-168 | exactly the images whose `post_id` is the post |
| ContentStore.FindImage | server/db/index.js:170-172 | the index of the image with the id, or none iff there is none |
| ContentStore.AppendPost | server/db/migrations/20250223_initial_schema.js:4-11 | a new row with a fresh slug and file path keeps the posts constraints |
| ContentStore.ReplacePost | server/db/index.js:71-77 | an updated row that keeps slug and file path unique keeps the constraints and the ids |
| ContentStore.FreshPostUnlinked | server/db/index.js:12-41 | a new post id is linked to nothing yet |
| ContentStore.SlugGone | server/db/index.js:118 | after the delete no row has the slug |
| ContentStore.AppendImage | server/db/index.js:163 | a new image row keeps the images constraints |
| ContentStore.RemoveImage | server/db/index.js:171 | removing an image keeps the constraints and leaves none with its id |
| PostCreator.DateOfIso | js/createPost.js:15 | the date is the `YYYY-MM-DD` part before the `T` |
| PostCreator.TrimmedTags | js/createPost.js:18-19 | the kept segments are non-empty and trimmed |
| PostCreator.TagList | js/createPost.js:16-19 | the tags are non-empty, trimmed and hold no comma |
| PostCreator.TagListInfix | js/createPost.js:16-19 | each tag is a piece of the typed tag string |
| PostCreator.SegmentsHaveNoComma | js/createPost.js:17 | no piece of `split(',')` holds a comma |
| PostCreator.QuoteAll | js/createPost.js:20 | every tag wrapped in `"`, one for one |
| PostCreator.FrontMatterLayout | js/createPost.js:14-29 | with no `{` in the scalar fields the front matter is the template with each field in place, the four scalars inside quotes and the quoted tags between the brackets |
| PostCreator.FillInOrder | js/createPost.js:23-28 | five first-occurrence replacements in order fill the five placeholders |
| PostCreator.ReplaceStep | js/createPost.js:24 | `replace` with a string pattern changes only its first occurrence |
| FileLoader.Or | js/fileLoader.js:76-81 | `x \|\| fallback` on strings |
| FileLoader.Lookup | js/fileLoader.js:76-81 | a front-matter property; a missing key reads as empty |
| FileLoader.ListValuePlain | js/fileLoader.js:64 | a value not opening with `[` keeps its quotes |
| FileLoader.ListValueBracket | js/fileLoader.js:64-68 | a bracketed value becomes its cleaned comma items joined by `, ` |
| FileLoader.CleanItems | js/fileLoader.js:66 | each item trimmed, with every `"` removed |
| FileLoader.ParseLine | js/fileLoader.js:58-71 | a line without `:` sets nothing |
| FileLoader.ReadFrontMatter | js/fileLoader.js:58-72 | the `forEach` over the front-matter lines gives `FoldLines` |
| FileLoader.ParseMarkdown | js/fileLoader.js:46-83 | the method's result is `ParseResult` of the content |
| FileLoader.StripEdgeHyphen | js/fileLoader.js:89 | `(^-\|-$)+` removes exactly one leading hyphen and one trailing hyphen (a different one), nothing else: the result is the slice of the input between them |
| FileLoader.GenerateSlug | js/fileLoader.js:85-90 | slugs use only `[a-z0-9-]`, with no doubled, leading or trailing hyphen |
| FileLoader.StripEdgeHyphenOfCollapsed | js/fileLoader.js:88-89 | on a collapsed string one strip leaves no edge hyphen |
| RoundTrip.RoundTrip | js/fileLoader.js:46-83 | reading back a file the serialiser wrote gives the trimmed body, the scalars still wrapped in their quotes, the normalised tags joined by `, `, and the slug of the quoted title |
| RoundTrip.ParsedFrom | js/fileLoader.js:53-82 | a file that splits as head, block, body gives the fields of the folded block, the trimmed body and the title's slug |
| RoundTrip.FieldsOf | js/fileLoader.js:75-81 | the five fields read back key by key, with no slug |
| RoundTrip.FileSplits | js/fileLoader.js:48-55 | the serialiser's two `---` lines are the ones the loader splits on; the body re-joins the later pieces |
| RoundTrip.BlockFields | js/fileLoader.js:58-72 | the block's lines fold to one entry per field, each scalar quoted |
| RoundTrip.FileShape | js/createPost.js:31-34 | the written file is `---`, the five field lines, `---`, the blank lines and the content |
| RoundTrip.TagsSafe | js/createPost.js:16-19 | the tags inherit what the tag string is free of |
| RoundTrip.QuotedJoinSafe | js/createPost.js:20-21 | quoting and joining adds no `---` and no line break |
| RoundTrip.SplitFile | js/fileLoader.js:48 | the file splits into the empty head, the block and the body's pieces |
| RoundTrip.TrimAfterBreaks | js/fileLoader.js:55 | the blank lines before the body vanish in the trim |
| RoundTrip.BlockLines | js/fileLoader.js:58 | the block splits into its five lines between two empty ones |
| RoundTrip.ParseLineKey | js/fileLoader.js:59-70 | a line `key:rest` sets the trimmed key to the list reading of the trimmed rest |
| RoundTrip.ParseLineOfParts | js/fileLoader.js:60-61 | the value is the rest re-joined with `:` and trimmed |
| RoundTrip.ParseScalarLine | js/fileLoader.js:59-70 | a scalar line reads back as the quoted value |
| RoundTrip.TagsValue | js/fileLoader.js:64-68 | the tags line reads back as the tags joined by `, ` |
| RoundTrip.TagsReadBack | js/fileLoader.js:65-67 | the loader's list reading undoes the serialiser's quoting and joining |
| RoundTrip.ListReadBack | js/fileLoader.js:65-66 | the cleaned comma items of a rendered list are the tags |
| RoundTrip.EmptyListReadBack | js/fileLoader.js:64-68 | `tags: []` reads back as the empty string |
| RoundTrip.SplitRendered | js/fileLoader.js:65 | the comma pieces of a rendered list are the quoted tags behind their spaces |
| RoundTrip.FoldSevenLines | js/fileLoader.js:58-72 | the fold over the seven block lines sets the five fields |
| Server.OrEmpty | server/server.js:55-57 | `x \|\| ''`: empty iff the field is absent or empty |
| Server.Interpolated | server/server.js:53 | a present field prints as it is |
| Server.PublishSlug | server/server.js:48 | the truthy `metadata.slug` as given; else, from the title, a slug of `[a-z0-9-]` with no doubled hyphen and no longer than the title; no slug (a failed request) iff the slug is falsy and the title is missing |
| Server.CollapseRunsShorter | server/server.js:48 | collapsing never lengthens |
| Server.CollapseRunsLast | server/server.js:48 | the derived slug ends with `-` iff the title ends outside `[a-z0-9]` |
| Server.PublishSlugEdge | server/server.js:48 | the publish slug keeps its edge hyphens; with them stripped it is the loader's slug |
| Server.HelloWorldSlug | server/server.js:48 | `Hello World!` is published as `hello-world-`, while the loader's slug is `hello-world` |
| Server.TwoWords | server/server.js:48 | two slug words around a space and a closing mark give `a-b-` |
| Server.PublishFilename | server/server.js:47-49 | `{date}-{slug}.md` |
| Server.LinesOf | server/server.js:52-59 | one `key: value` line per pair, in order |
| Server.PublishDirectory | server/server.js:64-67 | presentations iff `type === 'presentation'` |
| Server.Publish | server/server.js:42-88 | no slug: no write; a failed write: no hook; the file is written before the hook; a failed hook answers 500 with the file already written; success returns the file path |
| Server.JoinedLines | server/server.js:52-59 | the front-matter lines hold no line starting with `-` |
| Server.ClosingFree | server/server.js:52-59 | so the block is closed only by its own `---` |
| Server.KeyLine | server/server.js:53-58 | the watcher reads a template line as its key and trimmed value |
| Server.FoldKeyLines | server/server.js:52-59 | the watcher's fold over the lines sets each key in turn |
| Server.SetAllKeeps | server/server.js:52-59 | a key no later line sets keeps its value |
| Server.SetAllLookup | server/server.js:52-59 | the last line that sets a key decides its value |
| Server.SetAllKeys | server/server.js:52-59 | only the template's keys are set |
| Server.FrontMatterKeys | server/server.js:53-58 | the template's keys are distinct and read back as they are |
| Server.TemplateRead | server/server.js:52-61 | any such template is found as the watcher's block, and its fields are exactly the template's keys with the trimmed values |
| Server.PublishedFileRead | server/server.js:52-61 | the watcher reads back the published file's front matter, field for field, when no field holds a line break |
| Server.ContentDirectory | server/server.js:114 | listing and deleting use presentations iff `type === 'presentations'` |
| Server.DeleteMissesPresentation | server/server.js:136-140 | as written, deleting with the published type `presentation` looks in the posts directory |
| Server.ContentDirectoryFixed | server/server.js:139 | corrected: both spellings reach the presentations directory |
| Server.DeleteFindsPublished | server/server.js:136-140 | corrected: deleting with the published type reaches the directory the file was written to |
| Server.PublishedFileDeleteSlug | server/server.js:49 | removing a published file asks the store to delete `{date}-{slug}`, not the publish slug |
| Server.Excerpt | server/server.js:124 | at most 203 characters ending in `...`, the body's first 200 characters before it |
| MarpStyles.TemplateText | js/marpStyles.js:4-46 | a template is a comment line, then directives between `---` lines |
| MarpStyles.GetThemeTemplate | js/marpStyles.js:50-52 | the stored template for `default`, `gaia` and `custom`, otherwise the default one |
| MarpStyles.ApplyLayout | js/marpStyles.js:54-65 | the split, grid or comparison layout by name, otherwise the content as it is |
| MarpStyles.SplitLayoutOf | js/marpStyles.js:67-81 | the first two `\|\|` pieces are the columns; further pieces are dropped |
| MarpStyles.SplitLayoutSingle | js/marpStyles.js:67-81 | without `\|\|` the right column is empty |
| MarpStyles.GridItems | js/marpStyles.js:86-88 | one item per piece, in order |
| MarpStyles.GridLayout | js/marpStyles.js:83-91 | the loop appends one trimmed `grid-item` per `\|\|` piece |
| MarpStyles.GridItemAt | js/marpStyles.js:86-88 | piece `k` gets its own item, between the items before and after it |
| MarpStyles.GridLayoutOf | js/marpStyles.js:83-91 | content made of pieces gives one item per piece, in order |
| MarpStyles.GridLayoutSingle | js/marpStyles.js:83-91 | content without `\|\|` gives exactly one item |
| MarpStyles.ComparisonLayoutOf | js/marpStyles.js:93-110 | the trimmed first two pieces are Before and After |
| MarpStyles.ComparisonLayoutSingle | js/marpStyles.js:93-110 | without `\|\|` the After block contains `undefined` |
| MarpStyles.Slide | js/marpStyles.js:151-155 | a slide body followed by the `---` separator |
| MarpStyles.SlideTemplates | js/marpStyles.js:149-218 | every slide template ends with the `---` separator |
| Editing.Wrapped | js/editor.js:153-161 | text before, `before`, the selection, `after`, text after: the length grows by exactly both marks and the text outside the selection is unchanged |
| Editing.Unwrap | js/editor.js:159-161 | dropping the marks gives the text back |
| Editing.Inserted | js/editor.js:166-170 | the text inserted at the position, everything else kept |
| Editing.RemoveInserted | js/editor.js:166-170 | removing the inserted text restores the original |
| Editing.InsertKeepsSelection | js/editor.js:166-170 | inserting at `selectionStart` does not replace the selection |
| Editing.SetValue | js/editor.js:159 | assigning `value` keeps a valid selection |
| Editing.WrapState | js/editor.js:153-164 | `wrapText` on the textarea's state |
| Editing.InsertState | js/editor.js:166-171 | `insertText` on the textarea's state |
| Editing.Upload | js/editor.js:101-126 | after an ok response `![name](path)` is inserted at the cursor; a failed one changes nothing |
| Editing.UploadMovesCursor | js/editor.js:117-119 | the cursor then sits at the text's end |
| Editing.UploadAll | js/editor.js:93-95 | the uploads of a `for ... of` loop keep a valid state |
| Editing.UploadAllFailed | js/editor.js:81-83 | when every upload fails nothing changes |
| Editing.UploadAllLength | js/editor.js:81-83 | the text grows by the links of exactly the ok uploads |
| Editing.ImageFiles | js/editor.js:78-79 | the filter never adds a file |
| Editing.ImageFilesMembers | js/editor.js:78-79 | the filter keeps exactly the `image/` files |
| Editing.ImageFilesAppend | js/editor.js:78-79 | and keeps their order |
| Editing.ToolbarAction | js/editor.js:134-149 | bold, italic and code wrap with `**`, `_` and a backtick; link wraps and image inserts only with a non-empty url; preview toggles; anything else does nothing |
| Editing.Apply | js/editor.js:149 | an action keeps a valid state; toggling changes only the preview mode; no action changes nothing |
| Editing.MarkedSelection | js/editor.js:135-145 | bold, italic and code surround the selection symmetrically |
| Editing.LinkSelection | js/editor.js:137-140 | a link keeps the selection as its text and puts the url after it |
| Editing.Editor.constructor | js/editor.js:2-18 | the editor holds the textarea's text and selection, not in preview mode |
| Editing.Editor.SetState | js/editor.js:119 | the textarea takes the new state |
| Editing.Editor.WrapText | js/editor.js:153-164 | the textarea's value becomes the wrapped text |
| Editing.Editor.InsertText | js/editor.js:166-171 | the textarea's value becomes the text with the insertion |
| Editing.Editor.TogglePreviewMode | js/editor.js:178-180 | only the preview mode flips |
| Editing.Editor.UploadImage | js/editor.js:101-126 | the state after one upload |
| Editing.Editor.ToolbarClick | js/editor.js:130-150 | the toolbar's action applied |
| Editing.Editor.UploadFiles | js/editor.js:92-96 | every chosen file uploaded, in order |
| Editing.Editor.DropFiles | js/editor.js:74-84 | only the image files uploaded, in order |
| MarpPreview.LineEnd | js/marpPreview.js:244 | where `.*` stops: the first line terminator or the end |
| MarpPreview.MatchAt | js/marpPreview.js:244 | a match at an index starts with `# ` and its group holds no line terminator |
| MarpPreview.MatchIndex | js/marpPreview.js:244 | the first index with a match, or -1 |
| MarpPreview.ExtractTitle | js/marpPreview.js:243-246 | the title holds no line terminator; without `# ` it is `Untitled Presentation` |
| MarpPreview.FirstHeading | js/marpPreview.js:244-245 | the first `# `, anywhere, decides: its text up to `\n` or the end |
| MarpPreview.InitialContent | js/marpPreview.js:80-97 | an empty editor gets the default deck; other text stays |
| MarpPreview.DefaultDeckTitle | js/marpPreview.js:80-97 | the default deck is saved under `My Presentation` |
| MarpPreview.CrlfTitleMissed | js/marpPreview.js:244-245 | as written, a heading ended by `\r\n` gives `Untitled Presentation` |
| MarpPreview.ExtractTitleFixed | js/marpPreview.js:243-246 | corrected: the title holds no line terminator, and is `Untitled Presentation` when there is no `# ` |
| MarpPreview.CrlfTitleFixed | js/marpPreview.js:244-245 | corrected: a `\r\n` heading gives its text |
| MarpPreview.FixedHeading | js/marpPreview.js:244-245 | corrected: the first heading's text up to any line terminator |
| MarpPreview.FixedAgrees | js/marpPreview.js:244-245 | where a heading line ends with `\n` or the input, both agree |
| MarpPreview.FirstVisible | js/marpPreview.js:187-193 | the first slide in view, or 0 when none is |
| MarpPreview.CurrentSlideIndex | js/marpPreview.js:187-193 | the loop with its early return gives the first visible slide |
| MarpPreview.PreviousTarget | js/marpPreview.js:199-205 | a target exactly when the current index is positive: the slide before it |
| MarpPreview.NextTarget | js/marpPreview.js:207-213 | a target exactly when a later slide exists: the slide after it |
| MarpPreview.PreviousSlide | js/marpPreview.js:199-205 | scrolls to that target |
| MarpPreview.NextSlide | js/marpPreview.js:207-213 | scrolls to that target |
| MarpPreview.UpdateSlideCounter | js/marpPreview.js:178-185 | `Slide {i+1} / {n}` |
| MarpPreview.CounterBounds | js/marpPreview.js:182-183 | the slide shown is within 1..n when there are slides |
| MarpPreview.EmptyDeckCounter | js/marpPreview.js:182-184 | with no slides the counter reads `Slide 1 / 0` |
| Strings.NatToStringValue | js/marpPreview.js:184 | a printed number reads back as itself |
| Strings.IndexOf | js/fileLoader.js:59 | `indexOf`: -1 iff absent, else the first occurrence |
| Strings.SplitJoin | js/publisher.js:151 | splitting a join of clean pieces gives the pieces |
| Strings.JoinSplit | js/fileLoader.js:55 | joining a split gives the string |
| Strings.SplitLast | js/fileWatcher.js:163 | the last piece of a split holds no separator |
| Strings.Trim | js/fileLoader.js:61 | `trim` leaves no space at either edge |
| Strings.TrimSlice | js/fileLoader.js:61 | `trim` returns a slice of the input with only white space cut off on either side of it |
| Strings.TrimStartDrops | js/fileLoader.js:61 | what `trimStart` cuts off is all white space |
| Strings.TrimEndDrops | js/fileLoader.js:61 | what `trimEnd` cuts off is all white space |
| Strings.TrimIdempotent | js/fileLoader.js:61 | trimming twice is trimming once |
| Strings.ToLower | js/fileLoader.js:87 | lower-casing per character, ASCII only |
| Strings.RemoveChar | js/fileLoader.js:66 | `replace(/"/g, '')` removes every quote and nothing else |
| Strings.ReplaceFirstAt | js/createPost.js:24 | `replace` with a string pattern changes only the first occurrence |
| Strings.CollapseRuns | js/fileLoader.js:88 | `replace(/[^a-z0-9]+/g, '-')`: only `[a-z0-9-]`, no doubled hyphen, a leading hyphen iff the input starts outside `[a-z0-9]` |
| Strings.CollapseRunsFixed | js/fileLoader.js:88 | a collapsed string is left as it is |
| Strings.CollapseRunsSqueeze | js/fileLoader.js:88 | collapsing equals marking each character outside `[a-z0-9]` as a hyphen and then squeezing each run of hyphens to one, so each hyphen of the result stands for exactly one maximal run |
| Strings.CollapseRunsKeeps | js/fileLoader.js:88 | collapsing keeps every `[a-z0-9]` character, in order |
| Strings.SqueezeHyphens | js/fileLoader.js:88 | a run of hyphens before a non-hyphen squeezes to one |
| Strings.MarksRun | js/fileLoader.js:88 | a run of characters outside `[a-z0-9]` marks as that many hyphens and holds none of `[a-z0-9]` |
| Publishing.Publisher.constructor | js/publisher.js:2-6 | the page opens on the blog tab, with the form as given and the stored drafts |
| Publishing.Publisher.SwitchTab | js/publisher.js:119-120 | selects the tab; form and drafts stay |
| Publishing.Publisher.SetFormData | js/publisher.js:142-152 | the form is filled on the current tab and reads back the filled values |
| Publishing.Publisher.PublishContent | js/publisher.js:65-92 | no call when validation fails; the call forwards the tab, the content and the fields with the hook; the form is cleared only after a successful call |
| Publishing.Publisher.SaveDraft | js/publisher.js:167-180 | the current tab's list gains the draft in front |
| Publishing.ReadForm | js/publisher.js:130-140 | the content comes from the slide editor iff the tab is `presentation` |
| Publishing.FillForm | js/publisher.js:142-152 | only the current tab's editor is overwritten |
| Publishing.FillThenRead | js/publisher.js:130-152 | reading back on the same tab gives the values with `""` for missing ones and the tags joined by `, ` |
| Publishing.TagsRoundTrip | js/publisher.js:151 | the tags text splits back into the array when no tag holds `, ` |
| Publishing.ValidateForm | js/publisher.js:154-156 | truthy iff title and content are both non-empty |
| Publishing.PublishCallOf | js/publisher.js:67-84 | no call iff validation fails; the call forwards the tab, content, fields, raw tag string and hook |
| Publishing.PublishedContentFromTab | js/publisher.js:74-84 | the published content is the current tab's editor, never empty |
| Publishing.PublishAfterFill | js/publisher.js:65-71 | filled data publishes iff its title and content are non-empty |
| Publishing.ClearedForm | js/publisher.js:158-165 | after clearing, the current editor is empty and the other inputs are their defaults |
| Publishing.SavedDrafts | js/publisher.js:167-178 | the draft goes to index 0 of the tab's list, created when absent; the length grows by one; the old drafts follow in order; other tabs are untouched |
| Publishing.ReversedAt | js/publisher.js:173 | the reversed list puts the `i`-th from last at `i` |
| Publishing.SaveAllNewestFirst | js/publisher.js:173 | after several saves the tab's list holds them newest first, in front of the old ones |
| Publishing.SaveAllOthers | js/publisher.js:171-176 | saves on one tab leave every other tab as it was |

## Left out

- `getDirectoryContents`, `readFile` and all `fetch` calls: network I/O. Their answers are parameters.
- `PublisherAPI`, `js/api.js`, `js/watchManager.js`, `js/settings.js`, `js/config.js` and `server/db/knexfile.js`: network and configuration wrappers with no logic of their own. They are not part of this model.
- `setInterval`, `setTimeout` and the interleaving of awaited handlers: timers and scheduling. A scan is one sequential step, and the timer is the flag `intervalActive`.
- The knex engine and the SQL itself: the text of queries, isolation, and whether SQLite enforces foreign keys. Tables are sequences and a set; a broken constraint is an error that leaves the store unchanged.
- `listPosts` rows with equal `published_at`: the database gives them in an unspecified order, and the model fixes one. The `GROUP_CONCAT` order is also unspecified; the model uses the tag table's order.
- `ensureDirectories`, `/api/upload`, the `front-matter` library behind `/api/content`, multer and express routing: file-system and library code. Only the excerpt and the directory choice of those routes are modelled.
- Marp rendering, `marked`, CodeMirror, `setZoom`, scrolling and `getBoundingClientRect`: third-party rendering and floating-point layout. Slide visibility is a sequence of booleans.
- `Date` and `toISOString`: the clock. Dates and time stamps are string parameters.
- Unicode case mapping: `toLowerCase`/`toUpperCase` are modelled on ASCII letters only. Strings are sequences of UTF-16 code units seen as `char`.
- `String.replace` `$`-patterns and placeholder injection: the serialiser's lemmas require scalar fields without `{`.
- Prototype keys of plain objects (`constructor`, `__proto__`): a front-matter key equal to one of them is read like any other key.
- `MarpStyles.GetThemeTemplate`: a theme named after an `Object.prototype` member (`constructor`, `toString`) makes `this.themeTemplates[theme]` return that member, a function, and not the default template. The model's template table is a map, so such a name gets the default.
- `Server.Publish`: a request body with no `metadata` object at all throws a `TypeError` at server/server.js:47, and the route's `catch` answers it with status 500. `PublishMetadata` is always present in the model. Its fields may be missing, and a missing title without a slug is modelled as that 500.
- The drafts' JSON round trip through `localStorage`: drafts are a map of lists.
- `loadSavedContent`, `loadContent`, `deleteContent`, `updateContentList`, `showStatus` and `confirm` in `js/publisher.js`: network and DOM. The directory clash they run into is under Findings.
- `Publishing.Publisher.SetFormData`: tags given as a string rather than an array (where `join` would throw) are not modelled; tags are an optional array.
- `Publishing.Publisher.PublishContent`: `form.reset()` restores the inputs' HTML defaults, which are a parameter.
- Editor setup, keyboard shortcuts (`Cmd-S`, arrow keys), `updatePreview` and `MarpPreview.save`: DOM wiring and a network call. The title `save` sends is `ExtractTitle`.
- `FileWatcher.Watcher.Start`: it states the one scan `start` awaits. The later scans `setInterval` schedules are `ScanDirectory` calls.

## Findings

| source | as written | input that shows it | evidently intended | confidence | as-written member | corrected member |
|---|---|---|---|---|---|---|
| server/db/index.js:125-158 | `listPosts` reads tags back by splitting `GROUP_CONCAT(tags.name)` on `,` | a post with the one tag `a,b` is listed with the tags `a` and `b` | each post is listed with its tag names as stored | not executed; medium (the browser serialiser splits on commas, the API does not) | ContentStore.ConcatenatedTagsSplitComma | ContentStore.ListingSelected |
| server/server.js:136-140 | the delete route picks the presentations directory only for `presentations` | the publishing page deletes a presentation with its tab `presentation`, which `/api/publish` wrote to the presentations directory; the route looks in posts | deletion reaches the directory the file was published to | not executed; high | Server.DeleteMissesPresentation | Server.DeleteFindsPublished |
| js/marpPreview.js:244 | `/# (.*?)($\|\n)/`: `.` stops at `\r`, and `\r` is neither `$` nor `\n` | a deck whose heading is `# Talk\r\n` and holds no other `#` is saved as `Untitled Presentation` | the heading's text, whatever the line ending | not executed; medium | MarpPreview.CrlfTitleMissed | MarpPreview.CrlfTitleFixed |
